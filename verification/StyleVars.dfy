/**
 One CSS custom property inside an inline style, read and written as text
 (internal/dataapi/stylevars.go). What a write puts in, a read gets out.
 */
module StyleVars {
  import opened Scanner
  import opened Sequences
  import opened Values

  // ----- white space -----

  predicate IsSpace(c: char) {
    || c == '\t' || c == '\n' || c == '\U{0B}' || c == '\U{0C}' || c == '\r' || c == ' '
    || c == '\U{A0}' || c == '\U{1680}' || '\U{2000}' <= c <= '\U{200A}' || c == '\U{2028}' || c == '\U{2029}'
    || c == '\U{202F}' || c == '\U{205F}' || c == '\U{3000}' || c == '\U{FEFF}'
  }

  function TrimLeft(s: string): string {
    if s != [] && IsSpace(s[0]) then TrimLeft(s[1..]) else s
  }

  function TrimRight(s: string): string {
    if s != [] && IsSpace(s[|s| - 1]) then TrimRight(s[..|s| - 1]) else s
  }

  function Trim(s: string): string {
    TrimRight(TrimLeft(s))
  }

  predicate Blank(s: string) {
    forall i :: 0 <= i < |s| ==> IsSpace(s[i])
  }

  predicate IsTrimmed(s: string) {
    s == [] || (!IsSpace(s[0]) && !IsSpace(s[|s| - 1]))
  }

  lemma {:induction false} TrimLeftSkips(lead: string, s: string)
    requires Blank(lead) && (s == [] || !IsSpace(s[0]))
    ensures TrimLeft(lead + s) == s
    decreases |lead|
  {
    if lead == [] {
      assert lead + s == s;
    } else {
      assert (lead + s)[1..] == lead[1..] + s;
      TrimLeftSkips(lead[1..], s);
    }
  }

  lemma {:induction false} TrimRightSkips(s: string, tail: string)
    requires Blank(tail) && (s == [] || !IsSpace(s[|s| - 1]))
    ensures TrimRight(s + tail) == s
    decreases |tail|
  {
    if tail == [] {
      assert s + tail == s;
    } else {
      assert (s + tail)[..|s + tail| - 1] == s + tail[..|tail| - 1];
      TrimRightSkips(s, tail[..|tail| - 1]);
    }
  }

  lemma {:induction false} TrimSkips(lead: string, s: string, tail: string)
    requires Blank(lead) && Blank(tail) && IsTrimmed(s)
    ensures Trim(lead + s + tail) == s
  {
    if s == [] {
      assert lead + s + tail == (lead + tail) + [];
      TrimLeftSkips(lead + tail, []);
    } else {
      assert lead + s + tail == lead + (s + tail);
      TrimLeftSkips(lead, s + tail);
      TrimRightSkips(s, tail);
    }
  }

  lemma {:induction false} TrimLeftSplits(s: string) returns (lead: string)
    ensures s == lead + TrimLeft(s) && Blank(lead) && (TrimLeft(s) == [] || !IsSpace(TrimLeft(s)[0]))
    decreases |s|
  {
    if s != [] && IsSpace(s[0]) {
      var rest := TrimLeftSplits(s[1..]);
      lead := [s[0]] + rest;
      assert s == [s[0]] + s[1..];
    } else {
      lead := [];
    }
  }

  lemma {:induction false} TrimRightSplits(s: string) returns (tail: string)
    ensures s == TrimRight(s) + tail && Blank(tail) && (TrimRight(s) == [] || !IsSpace(TrimRight(s)[|TrimRight(s)| - 1]))
    decreases |s|
  {
    if s != [] && IsSpace(s[|s| - 1]) {
      var rest := TrimRightSplits(s[..|s| - 1]);
      tail := rest + [s[|s| - 1]];
      assert s == s[..|s| - 1] + [s[|s| - 1]];
    } else {
      tail := [];
    }
  }

  /** Trimming takes white space off both ends, and only that. */
  lemma {:induction false} TrimSplits(s: string) returns (lead: string, tail: string)
    ensures s == lead + Trim(s) + tail && Blank(lead) && Blank(tail) && IsTrimmed(Trim(s))
  {
    lead := TrimLeftSplits(s);
    tail := TrimRightSplits(TrimLeft(s));
  }

  // ----- one declaration -----

  /** The text without its comments, each replaced by one space. */
  function Strip(text: string, i: nat, quote: Quote): string
    decreases |text| - i
  {
    if i >= |text| then []
    else if quote.In? then
      if text[i] == '\\' && i + 1 < |text| then [text[i], text[i + 1]] + Strip(text, i + 2, quote)
      else [text[i]] + Strip(text, i + 1, if text[i] == quote.mark then Bare else quote)
    else if IsComment(text, i) then
      var end := CommentEnd(text, i + 2);
      [' '] + if end.None? then [] else Strip(text, end.value, quote)
    else [text[i]] + Strip(text, i + 1, if text[i] == '"' || text[i] == '\'' then In(text[i]) else quote)
  }

  function IndexOfChar(s: string, c: char): (r: Option<nat>)
    ensures r.Some? ==> r.value < |s| && s[r.value] == c && c !in s[..r.value]
    ensures r.None? ==> c !in s
  {
    if s == [] then None
    else
      assert s == [s[0]] + s[1..];
      if s[0] == c then Some(0)
      else
        var rest := IndexOfChar(s[1..], c);
        assert rest.Some? ==> s[..rest.value + 1] == [s[0]] + s[1..][..rest.value];
        if rest.None? then None else Some(rest.value + 1)
  }

  function LowerLetter(c: char): char {
    if 'A' <= c <= 'Z' then c - 'A' + 'a' else c
  }

  /** `!important` at the end of a value, however it is spaced and spelled. */
  predicate IsImportant(s: string) {
    s != [] && s[0] == '!' && var word := Trim(s[1..]); |word| == 9 && forall i :: 0 <= i < 9 ==> LowerLetter(word[i]) == "important"[i]
  }

  function ImportantAt(value: string, i: nat): (r: Option<nat>)
    requires i <= |value|
    ensures r.Some? ==> i <= r.value < |value| && IsImportant(value[r.value..])
    ensures r.None? ==> forall k :: i <= k < |value| ==> !IsImportant(value[k..])
    decreases |value| - i
  {
    if i == |value| then None else if IsImportant(value[i..]) then Some(i) else ImportantAt(value, i + 1)
  }

  datatype Declaration = Declaration(name: string, value: string, important: bool)

  function Parse(part: string): Option<Declaration> {
    ParseRaw(Strip(part, 0, Bare))
  }

  /** A declaration without its comments. */
  function ParseRaw(raw: string): Option<Declaration> {
    var colon := IndexOfChar(raw, ':');
    if colon.None? then None
    else Some(Declared(Trim(raw[..colon.value]), Trim(raw[colon.value + 1..])))
  }

  function Declared(name: string, value: string): Declaration {
    var at := ImportantAt(value, 0);
    if at.None? then Declaration(name, value, false) else Declaration(name, Trim(value[..at.value]), true)
  }

  predicate Names(part: string, name: string) {
    Parse(part).Some? && Parse(part).value.name == name
  }

  // ----- reading -----

  function ParseAll(parts: seq<string>): (decls: seq<Option<Declaration>>)
    ensures |decls| == |parts|
    ensures forall i :: 0 <= i < |parts| ==> decls[i] == Parse(parts[i])
  {
    seq(|parts|, i requires 0 <= i < |parts| => Parse(parts[i]))
  }

  predicate Is(d: Option<Declaration>, name: string) {
    d.Some? && d.value.name == name
  }

  /** The last declaration of `name`, unless an earlier one is important and it is not. */
  function Winner(decls: seq<Option<Declaration>>, name: string): Option<Declaration> {
    if decls == [] then None
    else
      var before, last := Winner(decls[..|decls| - 1], name), decls[|decls| - 1];
      if Is(last, name) && (before.None? || last.value.important || !before.value.important) then last else before
  }

  function Read(style: string, name: string): Option<string> {
    DeclaredValue(Winner(ParseAll(Split(style)), name))
  }

  function DeclaredValue(d: Option<Declaration>): Option<string> {
    if d.None? then None else Some(d.value.value)
  }

  // ----- writing -----

  predicate Present(decls: seq<Option<Declaration>>, name: string) {
    exists i :: 0 <= i < |decls| && Is(decls[i], name)
  }

  predicate AnyImportant(decls: seq<Option<Declaration>>, name: string) {
    exists i :: 0 <= i < |decls| && Is(decls[i], name) && decls[i].value.important
  }

  function Lead(part: string): string {
    if part != [] && IsSpace(part[0]) then [part[0]] + Lead(part[1..]) else []
  }

  function Spelled(lead: string, name: string, value: string, important: bool): string {
    lead + name + ": " + value + if important then " !important" else ""
  }

  /** The first declaration of `name` rewritten, the later ones dropped. */
  function Rewritten(parts: seq<string>, name: string, value: string, important: bool, placed: bool): seq<string> {
    if parts == [] then []
    else if !Is(Parse(parts[0]), name) then [parts[0]] + Rewritten(parts[1..], name, value, important, placed)
    else if value == "" || placed then Rewritten(parts[1..], name, value, important, placed)
    else [Spelled(Lead(parts[0]), name, value, important)] + Rewritten(parts[1..], name, value, important, true)
  }

  function Appended(style: string, name: string, value: string): string {
    var body := TrimRight(style);
    if body == "" then name + ": " + value
    else if body[|body| - 1] == ';' then body + " " + name + ": " + value
    else body + "; " + name + ": " + value
  }

  /** The text a write leaves. */
  function NextText(style: string, name: string, value: string): string {
    var parts := Split(style);
    var decls := ParseAll(parts);
    var out := Join(Rewritten(parts, name, value, AnyImportant(decls, name), false));
    if value != "" && !Present(decls, name) then Appended(out, name, value) else out
  }

  /** The new attribute text, none when nothing is left in it. */
  function Write(style: string, name: string, value: string): Option<string> {
    var next := NextText(style, name, value);
    if Trim(next) == "" then None else Some(next)
  }

  // ----- what a rewritten declaration reads as -----

  /** A custom property's name. */
  predicate ValidName(name: string) {
    |name| >= 3 && name[0] == '-' && name[1] == '-' &&
    forall i :: 0 <= i < |name| ==> name[i] == '-' || name[i] == '_' || '0' <= name[i] <= '9' || 'A' <= name[i] <= 'Z' || 'a' <= name[i] <= 'z'
  }

  /** Quotes and brackets close, and nothing starts a comment (unbalancedReason). */
  predicate Balanced(text: string, i: nat, st: State)
    requires i <= |text|
    decreases |text| - i
  {
    if i == |text| then st == Neutral
    else
      var c := text[i];
      if st.quote.In? then Balanced(text, i + 1, if c == st.quote.mark then State(Bare, st.stack) else st)
      else if c == '"' || c == '\'' then Balanced(text, i + 1, State(In(c), st.stack))
      else if IsComment(text, i) then false
      else if c == '(' then Balanced(text, i + 1, State(Bare, st.stack + [')']))
      else if c == '[' then Balanced(text, i + 1, State(Bare, st.stack + [']']))
      else if c == ')' || c == ']' then
        |st.stack| > 0 && st.stack[|st.stack| - 1] == c && Balanced(text, i + 1, State(Bare, st.stack[..|st.stack| - 1]))
      else Balanced(text, i + 1, st)
  }

  /** What the policy lets through (checkCustomPropertyValue), its length limit and function list aside. */
  predicate Allowed(value: string) {
    && (forall i :: 0 <= i < |value| ==> value[i] !in ";{}<>\\")
    && Balanced(value, 0, Neutral)
  }

  /** Characters that neither open, close, quote, comment nor cut. */
  predicate Inert(c: char) {
    c !in "\"'/()[]{};"
  }

  lemma {:induction false} InertReaches(text: string, a: nat, b: nat)
    requires a <= b <= |text| && forall k :: a <= k < b ==> Inert(text[k])
    ensures Reaches(text, a, Neutral, b, Neutral)
    decreases b - a
  {
    if a < b {
      InertReaches(text, a + 1, b);
    }
  }

  lemma {:induction false} BalancedReaches(value: string, i: nat, st: State)
    requires i <= |value| && Balanced(value, i, st) && st.quote != Torn
    requires forall k :: 0 <= k < |value| ==> value[k] !in ";{}<>\\"
    ensures Reaches(value, i, st, |value|, Neutral)
    decreases |value| - i
  {
    if i < |value| {
      assert value[i] !in ";{}<>\\";
      BalancedReaches(value, i + 1, Step(value, i, st).0);
    }
  }

  lemma {:induction false} InertTurn(text: string, a: nat)
    requires a < |text| && Inert(text[a])
    ensures Strip(text, a, Bare) == [text[a]] + Strip(text, a + 1, Bare)
  {
  }

  lemma {:induction false} InertStrips(text: string, a: nat, b: nat)
    requires a <= b <= |text| && forall k :: a <= k < b ==> Inert(text[k])
    ensures Strip(text, a, Bare) == text[a..b] + Strip(text, b, Bare)
    decreases b - a
  {
    if a < b {
      InertTurn(text, a);
      InertStrips(text, a + 1, b);
      assert text[a..b] == [text[a]] + text[a + 1..b];
      Assoc([text[a]], text[a + 1..b], Strip(text, b, Bare));
    }
  }

  lemma {:induction false} BalancedTurn(value: string, i: nat, st: State, text: string, at: nat)
    requires i < |value| && Balanced(value, i, st) && st.quote != Torn && SameStretch(value, 0, |value|, text, at)
    requires value[i] !in ";{}<>\\"
    requires at + |value| < |text| ==> text[at + |value|] != '*'
    ensures var next := Step(value, i, st).0;
      next.quote != Torn && Balanced(value, i + 1, next) && Strip(text, at + i, st.quote) == [value[i]] + Strip(text, at + (i + 1), next.quote)
  {
    assert text[at + (i - 0)] == value[i];
    assert i + 1 < |value| ==> text[at + (i + 1 - 0)] == value[i + 1];
  }

  lemma {:induction false} BalancedStrips(value: string, i: nat, st: State, text: string, at: nat)
    requires i <= |value| && Balanced(value, i, st) && st.quote != Torn && SameStretch(value, 0, |value|, text, at)
    requires forall k :: 0 <= k < |value| ==> value[k] !in ";{}<>\\"
    requires at + |value| < |text| ==> text[at + |value|] != '*'
    ensures Strip(text, at + i, st.quote) == value[i..] + Strip(text, at + |value|, Bare)
    decreases |value| - i
  {
    if i == |value| {
      assert value[i..] == [];
    } else {
      var next, rest := Step(value, i, st).0, value[i + 1..];
      BalancedTurn(value, i, st, text, at);
      BalancedStrips(value, i + 1, next, text, at);
      assert value[i..] == [value[i]] + rest;
      Assoc([value[i]], rest, Strip(text, at + |value|, Bare));
    }
  }

  lemma {:induction false} SpelledParts(lead: string, name: string, value: string, important: bool) returns (pre: string, post: string)
    requires Blank(lead) && ValidName(name)
    ensures Spelled(lead, name, value, important) == pre + value + post
    ensures pre == lead + name + ": " && post == if important then " !important" else ""
    ensures forall k :: 0 <= k < |pre| ==> Inert(pre[k])
    ensures forall k :: 0 <= k < |post| ==> Inert(post[k]) && post[k] != '*'
  {
    pre, post := lead + name + ": ", if important then " !important" else "";
    forall k | 0 <= k < |pre| ensures Inert(pre[k]) {
      if k < |lead| {
        assert pre[k] == lead[k] && IsSpace(lead[k]);
      } else if k < |lead| + |name| {
        assert pre[k] == name[k - |lead|];
      }
    }
  }

  lemma {:induction false} SpelledCloses(lead: string, name: string, value: string, important: bool)
    requires Blank(lead) && ValidName(name) && Allowed(value)
    ensures Closed(Spelled(lead, name, value, important))
  {
    var pre, post := SpelledParts(lead, name, value, important);
    var text := pre + value + post;
    var b := |pre| + |value|;
    InertReaches(text, 0, |pre|);
    BalancedReaches(value, 0, Neutral);
    Transfer(value, 0, Neutral, |value|, Neutral, text, |pre|);
    InertReaches(text, b, |text|);
    ReachesOn(text, 0, Neutral, |pre|, Neutral, b, Neutral);
    ReachesOn(text, 0, Neutral, b, Neutral, |text|, Neutral);
  }

  lemma {:induction false} Slices(pre: string, value: string, post: string)
    ensures var text := pre + value + post;
      text[0..|pre|] == pre && value[0..] == value && text[|pre| + |value|..|text|] == post && text == pre + (value + (post + []))
  {
  }

  lemma {:induction false} SpelledStrips(pre: string, value: string, post: string)
    requires Allowed(value)
    requires forall k :: 0 <= k < |pre| ==> Inert(pre[k])
    requires forall k :: 0 <= k < |post| ==> Inert(post[k]) && post[k] != '*'
    ensures Strip(pre + value + post, 0, Bare) == pre + value + post
  {
    var text := pre + value + post;
    var b := |pre| + |value|;
    Slices(pre, value, post);
    PostStrips(text, b);
    ValueStrips(pre, value, post, text);
    Chained(pre, value, post, Strip(text, 0, Bare), Strip(text, |pre|, Bare), Strip(text, b, Bare));
  }

  lemma {:induction false} ValueStrips(pre: string, value: string, post: string, text: string)
    requires Allowed(value) && text == pre + value + post
    requires forall k :: 0 <= k < |pre| ==> Inert(pre[k])
    requires forall k :: 0 <= k < |post| ==> post[k] != '*'
    ensures Strip(text, 0, Bare) == pre + Strip(text, |pre|, Bare)
    ensures Strip(text, |pre|, Bare) == value + Strip(text, |pre| + |value|, Bare)
  {
    Slices(pre, value, post);
    assert forall k :: 0 <= k < |pre| ==> text[k] == pre[k];
    InertStrips(text, 0, |pre|);
    assert |post| > 0 ==> text[|pre| + |value|] == post[0];
    BalancedStrips(value, 0, Neutral, text, |pre|);
  }

  lemma {:induction false} Chained(pre: string, value: string, post: string, all: string, later: string, last: string)
    requires all == pre + later && later == value + last && last == post + []
    ensures all == pre + value + post
  {
  }

  lemma {:induction false} PostStrips(text: string, b: nat)
    requires b <= |text| && forall k :: b <= k < |text| ==> Inert(text[k])
    ensures Strip(text, b, Bare) == text[b..|text|] + []
  {
    InertStrips(text, b, |text|);
  }

  lemma {:induction false} ColonFound(before: string, after: string)
    requires ':' !in before
    ensures IndexOfChar(before + ":" + after, ':') == Some(|before|)
    decreases |before|
  {
    var s := before + ":" + after;
    if before != [] {
      ColonFound(before[1..], after);
      assert s[1..] == before[1..] + ":" + after;
    }
  }

  lemma {:induction false} ParseOf(part: string, before: string, after: string)
    requires Strip(part, 0, Bare) == part && part == before + ":" + after && ':' !in before
    ensures Parse(part) == Some(Declared(Trim(before), Trim(after)))
  {
    ColonFound(before, after);
    assert part[..|before|] == before && part[|before| + 1..] == after;
  }

  lemma {:induction false} NameTrims(lead: string, name: string)
    requires Blank(lead) && ValidName(name)
    ensures Trim(lead + name) == name && ':' !in lead + name
  {
    TrimSkips(lead, name, "");
    assert lead + name + "" == lead + name;
    forall k | 0 <= k < |lead + name| ensures (lead + name)[k] != ':' {
      if k < |lead| {
        assert IsSpace(lead[k]);
      } else {
        assert (lead + name)[k] == name[k - |lead|];
      }
    }
  }

  lemma {:induction false} ValueTrims(value: string)
    requires IsTrimmed(value)
    ensures Trim(" " + value) == value
  {
    TrimSkips(" ", value, "");
    assert " " + value + "" == " " + value;
  }

  /** A spelled declaration has its name, and its value up to the importance it ends in. */
  lemma {:induction false} SpelledParses(lead: string, name: string, value: string, important: bool)
    requires Blank(lead) && ValidName(name) && Allowed(value) && IsTrimmed(value) && value != ""
    ensures Parse(Spelled(lead, name, value, important)) == Some(Declared(name, if important then value + " !important" else value))
  {
    var pre, post := SpelledParts(lead, name, value, important);
    SpelledStrips(pre, value, post);
    Regrouped(lead, name, value, post);
    NameTrims(lead, name);
    ParseOf(pre + value + post, lead + name, " " + (value + post));
    MarkTrims(value, post, important);
  }

  lemma {:induction false} MarkTrims(value: string, post: string, important: bool)
    requires IsTrimmed(value) && value != "" && post == if important then " !important" else ""
    ensures Trim(" " + (value + post)) == if important then value + " !important" else value
  {
    if !important {
      assert value + post == value;
    }
    ValueTrims(value + post);
  }

  lemma {:induction false} Regrouped(lead: string, name: string, value: string, post: string)
    ensures (lead + name + ": ") + value + post == (lead + name) + ":" + (" " + (value + post))
  {
  }

  // ----- importance -----

  predicate EndsImportant(value: string) {
    ImportantAt(value, 0).Some?
  }

  lemma {:induction false} TrimShorter(s: string)
    ensures |Trim(s)| <= |s| && forall c :: c in s && !IsSpace(c) ==> c in Trim(s)
  {
    var lead, tail := TrimSplits(s);
    assert forall c :: c in lead || c in tail ==> IsSpace(c);
  }

  /** Only the last exclamation mark of a value can start its importance. */
  lemma {:induction false} ImportanceIsLast(value: string, k: nat)
    requires k < |value| && '!' in value[k + 1..]
    ensures !IsImportant(value[k..])
  {
    var s := value[k..];
    assert s[1..] == value[k + 1..];
    TrimShorter(s[1..]);
    var word := Trim(s[1..]);
    var i :| 0 <= i < |word| && word[i] == '!';
    assert LowerLetter(word[i]) == '!';
    assert i < 9 ==> "important"[i] != '!';
  }

  lemma {:induction false} BangIsImportant()
    ensures IsImportant("!important")
  {
    TrimSkips("", "important", "");
    assert "!important"[1..] == "important" && "" + "important" + "" == "important";
  }

  lemma {:induction false} MarkedIsImportant(value: string)
    requires value != "" && IsTrimmed(value)
    ensures Declared(value, value + " !important") == Declaration(value, value, true)
  {
    var whole, at := value + " !important", |value| + 1;
    assert whole[at..] == "!important";
    BangIsImportant();
    forall k | 0 <= k < at ensures !IsImportant(whole[k..]) {
      assert whole[k + 1..][at - k - 1] == '!';
      ImportanceIsLast(whole, k);
    }
    FirstImportant(whole, 0, at);
    assert whole[..at] == "" + value + " ";
    TrimSkips("", value, " ");
  }

  lemma {:induction false} FirstImportant(value: string, i: nat, at: nat)
    requires i <= at < |value| && IsImportant(value[at..])
    requires forall k :: i <= k < at ==> !IsImportant(value[k..])
    ensures ImportantAt(value, i) == Some(at)
    decreases at - i
  {
    if i < at {
      FirstImportant(value, i + 1, at);
    }
  }

  /** What a spelled declaration reads as, whether or not it was marked important. */
  lemma {:induction false} SpelledReads(lead: string, name: string, value: string, important: bool)
    requires Blank(lead) && ValidName(name) && Allowed(value) && IsTrimmed(value) && value != ""
    ensures Is(Parse(Spelled(lead, name, value, important)), name)
    ensures Parse(Spelled(lead, name, value, important)).value.value == value <==> important || !EndsImportant(value)
  {
    SpelledParses(lead, name, value, important);
    if important {
      MarkedIsImportant(value);
    } else if EndsImportant(value) {
      var at := ImportantAt(value, 0).value;
      TrimShorter(value[..at]);
    }
  }

  // ----- what a list of parts reads as -----

  /** The declarations of `name`, in order. */
  ghost function Relevant(decls: seq<Option<Declaration>>, name: string): seq<Declaration> {
    if decls == [] then []
    else Relevant(decls[..|decls| - 1], name) + if Is(decls[|decls| - 1], name) then [decls[|decls| - 1].value] else []
  }

  ghost function Best(found: seq<Declaration>): Option<Declaration> {
    if found == [] then None
    else
      var before, last := Best(found[..|found| - 1]), found[|found| - 1];
      if before.None? || last.important || !before.value.important then Some(last) else before
  }

  /** Only the declarations of a name decide what it reads as. */
  lemma {:induction false} WinnerIsBest(decls: seq<Option<Declaration>>, name: string)
    ensures Winner(decls, name) == Best(Relevant(decls, name))
    decreases |decls|
  {
    if decls != [] {
      var init, last := decls[..|decls| - 1], decls[|decls| - 1];
      WinnerIsBest(init, name);
      var before := Relevant(init, name);
      if Is(last, name) {
        assert (before + [last.value])[..|before|] == before;
      } else {
        assert before + [] == before;
      }
    }
  }

  lemma {:induction false} RelevantConcat(xs: seq<Option<Declaration>>, ys: seq<Option<Declaration>>, name: string)
    ensures Relevant(xs + ys, name) == Relevant(xs, name) + Relevant(ys, name)
    decreases |ys|
  {
    if ys == [] {
      assert xs + ys == xs;
    } else {
      var init := ys[..|ys| - 1];
      RelevantConcat(xs, init, name);
      assert (xs + ys)[..|xs + ys| - 1] == xs + init;
    }
  }

  lemma {:induction false} RelevantOne(d: Option<Declaration>, name: string)
    ensures Relevant([d], name) == if Is(d, name) then [d.value] else []
  {
    assert [d][..0] == [];
  }

  lemma {:induction false} RelevantCons(part: string, rest: seq<string>, name: string)
    ensures Relevant(ParseAll([part] + rest), name)
      == (if Is(Parse(part), name) then [Parse(part).value] else []) + Relevant(ParseAll(rest), name)
  {
    ParseCons(part, rest);
    RelevantConcat([Parse(part)], ParseAll(rest), name);
    RelevantOne(Parse(part), name);
  }

  lemma {:induction false} ParseCons(part: string, rest: seq<string>)
    ensures ParseAll([part] + rest) == [Parse(part)] + ParseAll(rest)
  {
    var parts, decls := [part] + rest, ParseAll([part] + rest);
    forall i | 0 < i < |parts| ensures decls[i] == ParseAll(rest)[i - 1] {
      assert parts[i] == rest[i - 1];
    }
  }

  lemma {:induction false} PresentCons(part: string, rest: seq<string>, name: string)
    ensures Present(ParseAll([part] + rest), name) == (Is(Parse(part), name) || Present(ParseAll(rest), name))
  {
    ParseCons(part, rest);
    var decls := [Parse(part)] + ParseAll(rest);
    if Is(Parse(part), name) {
      assert Is(decls[0], name);
    }
    if i :| 0 <= i < |rest| && Is(ParseAll(rest)[i], name) {
      assert Is(decls[i + 1], name);
    }
  }

  lemma {:induction false} NoneRelevant(decls: seq<Option<Declaration>>, name: string)
    ensures Relevant(decls, name) == [] <==> !Present(decls, name)
    decreases |decls|
  {
    if decls != [] {
      var init, last := decls[..|decls| - 1], decls[|decls| - 1];
      NoneRelevant(init, name);
      if i :| 0 <= i < |init| && Is(init[i], name) {
        assert Is(decls[i], name);
      }
      if i :| 0 <= i < |decls| && Is(decls[i], name) {
        assert i < |init| ==> Is(init[i], name);
      }
    }
  }

  // ----- what a rewrite does to them -----

  lemma {:induction false} LeadIsBlank(part: string)
    ensures Blank(Lead(part))
    decreases |part|
  {
    if part != [] && IsSpace(part[0]) {
      LeadIsBlank(part[1..]);
    }
  }

  lemma {:induction false} OthersKept(parts: seq<string>, name: string, value: string, important: bool, placed: bool, other: string)
    requires ValidName(name) && Allowed(value) && IsTrimmed(value) && other != name
    ensures Relevant(ParseAll(Rewritten(parts, name, value, important, placed)), other) == Relevant(ParseAll(parts), other)
    decreases |parts|
  {
    if parts != [] {
      var part, rest := parts[0], parts[1..];
      assert parts == [part] + rest;
      RelevantCons(part, rest, other);
      if !Is(Parse(part), name) || value == "" || placed {
        OthersKept(rest, name, value, important, placed, other);
        RelevantCons(part, Rewritten(rest, name, value, important, placed), other);
      } else {
        OthersKept(rest, name, value, important, true, other);
        LeadIsBlank(part);
        SpelledReads(Lead(part), name, value, important);
        RelevantCons(Spelled(Lead(part), name, value, important), Rewritten(rest, name, value, important, true), other);
      }
    }
  }

  ghost predicate IsSpelled(found: seq<Declaration>, name: string, value: string, important: bool) {
    exists lead {:trigger Spelled(lead, name, value, important)} :: Blank(lead) && Parse(Spelled(lead, name, value, important)).Some?
      && found == [Parse(Spelled(lead, name, value, important)).value]
  }

  /** Of the declarations of `name` one is left, in the new spelling, or none. */
  lemma {:induction false} OneLeft(parts: seq<string>, name: string, value: string, important: bool, placed: bool)
    requires ValidName(name) && Allowed(value) && IsTrimmed(value)
    ensures var found := Relevant(ParseAll(Rewritten(parts, name, value, important, placed)), name);
      if value != "" && !placed && Present(ParseAll(parts), name) then IsSpelled(found, name, value, important) else found == []
    decreases |parts|
  {
    if parts != [] {
      var part, rest := parts[0], parts[1..];
      assert parts == [part] + rest;
      PresentCons(part, rest, name);
      if !Is(Parse(part), name) || value == "" || placed {
        OneLeft(rest, name, value, important, placed);
        if !Is(Parse(part), name) {
          RelevantCons(part, Rewritten(rest, name, value, important, placed), name);
        }
      } else {
        OneLeft(rest, name, value, important, true);
        OneSpelled(part, Rewritten(rest, name, value, important, true), name, value, important);
      }
    }
  }

  lemma {:induction false} OneSpelled(part: string, rest: seq<string>, name: string, value: string, important: bool)
    requires ValidName(name) && Allowed(value) && IsTrimmed(value) && value != ""
    requires Relevant(ParseAll(rest), name) == []
    ensures IsSpelled(Relevant(ParseAll([Spelled(Lead(part), name, value, important)] + rest), name), name, value, important)
  {
    LeadIsBlank(part);
    SpelledReads(Lead(part), name, value, important);
    RelevantCons(Spelled(Lead(part), name, value, important), rest, name);
  }

  lemma {:induction false} ClosedIsUncut(part: string)
    requires Closed(part)
    ensures FirstCut(part, 0, Neutral) == None
  {
    CutAfter(part, 0, Neutral, |part|, Neutral);
  }

  /** Rewritten parts are parts again. */
  lemma {:induction false} RewrittenParts(parts: seq<string>, name: string, value: string, important: bool, placed: bool)
    requires ValidName(name) && Allowed(value) && AreParts(parts)
    ensures var out := Rewritten(parts, name, value, important, placed); out == [] || AreParts(out)
    decreases |parts|
  {
    var part, rest := parts[0], parts[1..];
    var head := if !Is(Parse(part), name) then part else Spelled(Lead(part), name, value, important);
    if Is(Parse(part), name) {
      LeadIsBlank(part);
      SpelledCloses(Lead(part), name, value, important);
    }
    if rest == [] {
      assert Rewritten(rest, name, value, important, placed) == [] && Rewritten(rest, name, value, important, true) == [];
      if Is(Parse(part), name) {
        ClosedIsUncut(head);
      }
    } else {
      assert Closed(part) by {
        assert parts[0] == part;
      }
      assert AreParts(rest);
      RewrittenParts(rest, name, value, important, placed);
      RewrittenParts(rest, name, value, important, true);
      ClosedIsUncut(head);
      Prepended(head, Rewritten(rest, name, value, important, placed));
      Prepended(head, Rewritten(rest, name, value, important, true));
    }
  }

  lemma {:induction false} Prepended(head: string, rest: seq<string>)
    requires Closed(head) && FirstCut(head, 0, Neutral) == None && (rest == [] || AreParts(rest))
    ensures AreParts([head] + rest)
  {
    var parts := [head] + rest;
    forall i | 0 <= i < |parts| - 1 ensures Closed(parts[i]) {
      if i > 0 {
        assert parts[i] == rest[i - 1];
      }
    }
  }

  // ----- what a write puts in, a read gets out -----

  lemma {:induction false} ReadJoined(out: seq<string>, name: string)
    requires out == [] || AreParts(out)
    ensures Winner(ParseAll(Split(Join(out))), name) == Best(Relevant(ParseAll(out), name))
  {
    if out == [] {
      assert Split("") == [""] && ParseAll([""]) == [Parse("")];
    } else {
      SplitJoin(out);
    }
    WinnerIsBest(ParseAll(Split(Join(out))), name);
  }

  lemma {:induction false} BestOfOne(d: Declaration)
    ensures Best([d]) == Some(d)
  {
    assert [d][..0] == [];
  }

  /**
   A property already there is rewritten, or removed: it then reads as the new value unless that ends
   in an importance of its own and the property had none. Every other property reads as before.
   */
  lemma {:induction false} RewriteReads(style: string, name: string, value: string, other: string)
    requires ValidName(name) && Allowed(value) && IsTrimmed(value) && other != name
    requires value == "" || Present(ParseAll(Split(style)), name)
    ensures var next := NextText(style, name, value);
      && Read(next, other) == Read(style, other)
      && (value == "" ==> Read(next, name) == None)
      && (value != "" ==> (Read(next, name) == Some(value) <==> AnyImportant(ParseAll(Split(style)), name) || !EndsImportant(value)))
  {
    var parts, important := Split(style), AnyImportant(ParseAll(Split(style)), name);
    var out := Rewritten(parts, name, value, important, false);
    SplitParts(style);
    RewrittenParts(parts, name, value, important, false);
    OthersKept(parts, name, value, important, false, other);
    WinnerIsBest(ParseAll(parts), other);
    ReadJoined(out, other);
    OneLeft(parts, name, value, important, false);
    ReadJoined(out, name);
    if value != "" {
      SpelledWins(Relevant(ParseAll(out), name), name, value, important);
    }
  }

  lemma {:induction false} SpelledWins(found: seq<Declaration>, name: string, value: string, important: bool)
    requires ValidName(name) && Allowed(value) && IsTrimmed(value) && value != "" && IsSpelled(found, name, value, important)
    ensures Best(found).Some? && (Best(found).value.value == value <==> important || !EndsImportant(value))
  {
    var lead :| Blank(lead) && Parse(Spelled(lead, name, value, important)).Some?
      && found == [Parse(Spelled(lead, name, value, important)).value];
    SpelledReads(lead, name, value, important);
    BestOfOne(found[0]);
  }

  // ----- appending -----

  ghost predicate QuoteMark(st: State) {
    st.quote.In? ==> st.quote.mark == '"' || st.quote.mark == '\''
  }

  /** White space a closed part ends in can be left off. */
  lemma {:induction false} BackOverSpace(text: string, a: nat, st: State, b: nat)
    requires a < b <= |text| && Reaches(text, a, st, b, Neutral) && IsSpace(text[b - 1]) && QuoteMark(st)
    ensures Reaches(text, a, st, b - 1, Neutral)
    decreases b - a
  {
    var s := Step(text, a, st);
    if s.1 < b {
      BackOverSpace(text, s.1, s.0, b);
    }
  }

  lemma {:induction false} LastIsNoCut(text: string, a: nat, st: State, b: nat)
    requires a < b <= |text| && Reaches(text, a, st, b, Neutral) && QuoteMark(st)
    ensures text[b - 1] != ';'
    decreases b - a
  {
    var s := Step(text, a, st);
    if s.1 < b {
      LastIsNoCut(text, s.1, s.0, b);
    }
  }

  lemma {:induction false} TrimmedCloses(part: string, b: nat)
    requires Closed(part) && b <= |part| && Blank(part[b..])
    ensures Closed(part[..b])
    decreases |part| - b
  {
    if b < |part| {
      var shorter := part[..|part| - 1];
      assert part[b..][|part| - 1 - b] == part[|part| - 1];
      BackOverSpace(part, 0, Neutral, |part|);
      Transfer(part, 0, Neutral, |part| - 1, Neutral, shorter, 0);
      assert shorter[b..] == part[b..][..|part| - 1 - b] && shorter[..b] == part[..b];
      TrimmedCloses(shorter, b);
    } else {
      assert part[..b] == part;
    }
  }

  lemma {:induction false} SameComment(text: string, whole: string, i: nat)
    requires i < |text| <= |whole| && text == whole[..|text|] && (|text| < |whole| ==> whole[|text|] != '*')
    ensures IsComment(whole, i) == IsComment(text, i)
    ensures IsComment(text, i) && CommentEnd(text, i + 2).Some? ==> CommentEnd(whole, i + 2) == CommentEnd(text, i + 2)
  {
    assert whole[i] == text[i];
    assert i + 1 < |text| ==> whole[i + 1] == text[i + 1];
    if IsComment(text, i) && CommentEnd(text, i + 2).Some? {
      CommentEndMoves(text, whole, i + 2, 0);
    }
  }

  lemma {:induction false} SameTurn(text: string, i: nat, st: State, tail: string, whole: string)
    requires i < |text| && Reaches(text, i, st, |text|, Neutral) && Blank(tail) && st.quote != Torn && whole == text + tail
    ensures var s := Step(text, i, st);
      && s.0.quote != Torn && s.1 <= |text| && Step(whole, i, st) == s
      && IsComment(whole, i) == IsComment(text, i) && whole[i..s.1] == text[i..s.1]
  {
    var s := Step(text, i, st);
    assert |tail| > 0 ==> whole[|text|] == tail[0];
    assert text == whole[..|text|];
    SameComment(text, whole, i);
    if s.0.quote.Torn? {
      TornStays(text, s.1, s.0, |text|, Neutral);
    }
  }

  /** Stripping a closed text and what follows it apart. */
  lemma {:induction false} StripOn(text: string, i: nat, st: State, tail: string, whole: string)
    requires i <= |text| && Reaches(text, i, st, |text|, Neutral) && Blank(tail) && st.quote != Torn && whole == text + tail
    ensures Strip(whole, i, st.quote) == Strip(text, i, st.quote) + tail
    decreases |text| - i
  {
    if i == |text| {
      InertStrips(whole, i, |whole|);
      assert whole[i..|whole|] == tail;
    } else {
      var s := Step(text, i, st);
      SameTurn(text, i, st, tail, whole);
      StripOn(text, s.1, s.0, tail, whole);
      StripBoth(text, i, st, tail, whole);
    }
  }

  lemma {:induction false} StripBoth(text: string, i: nat, st: State, tail: string, whole: string)
    requires i < |text| <= |whole| && st.quote != Torn && Step(text, i, st) == Step(whole, i, st) && IsComment(whole, i) == IsComment(text, i)
    requires var s := Step(text, i, st);
      && s.0.quote != Torn && s.1 <= |text| && whole[i..s.1] == text[i..s.1]
      && Strip(whole, s.1, s.0.quote) == Strip(text, s.1, s.0.quote) + tail
    ensures Strip(whole, i, st.quote) == Strip(text, i, st.quote) + tail
  {
    var s := Step(text, i, st);
    var head := if st.quote.Bare? && IsComment(text, i) then " " else text[i..s.1];
    StripTurn(text, i, st);
    StripTurn(whole, i, st);
    Assoc(head, Strip(text, s.1, s.0.quote), tail);
  }

  /** One turn of the stripping, beside one of the scan. */
  lemma {:induction false} StripTurn(text: string, i: nat, st: State)
    requires i < |text| && st.quote != Torn && Step(text, i, st).0.quote != Torn && Step(text, i, st).1 <= |text|
    ensures var s := Step(text, i, st);
      Strip(text, i, st.quote) == (if st.quote.Bare? && IsComment(text, i) then " " else text[i..s.1]) + Strip(text, s.1, s.0.quote)
  {
    assert text[i..i + 1] == [text[i]];
    assert i + 2 <= |text| ==> text[i..i + 2] == [text[i], text[i + 1]];
  }

  lemma {:induction false} TrimTail(s: string, tail: string)
    requires Blank(tail)
    ensures Trim(s + tail) == Trim(s)
  {
    var lead, rest := TrimSplits(s);
    TrimSkips(lead, Trim(s), rest + tail);
    assert s + tail == lead + Trim(s) + (rest + tail);
  }

  /** Trailing white space makes no difference to what a part declares. */
  lemma {:induction false} TailParses(part: string, tail: string)
    requires Closed(part) && Blank(tail)
    ensures Parse(part + tail) == Parse(part)
  {
    StripOn(part, 0, Neutral, tail, part + tail);
    var raw := Strip(part, 0, Bare);
    var colon := IndexOfChar(raw, ':');
    forall k | 0 <= k < |tail| ensures tail[k] != ':' {
      assert IsSpace(tail[k]);
    }
    if colon.Some? {
      var before, after := raw[..colon.value], raw[colon.value + 1..];
      assert raw == before + ":" + after && raw + tail == before + ":" + (after + tail);
      ColonFound(before, after + tail);
      assert (raw + tail)[..|before|] == before && (raw + tail)[|before| + 1..] == after + tail;
      TrimTail(after, tail);
    } else {
      assert ':' !in raw + tail;
    }
  }

  /** What joins to the text before the last part. */
  ghost function Before(parts: seq<string>): string
    requires |parts| > 0
  {
    if |parts| == 1 then "" else parts[0] + ";" + Before(parts[1..])
  }

  lemma {:induction false} JoinEnds(init: seq<string>, last: string, more: string)
    ensures Join(init + [last]) == Before(init + [last]) + last
    ensures Join(init + [last, more]) == Before(init + [last]) + last + ";" + more
    ensures Before(init + [more]) == Before(init + [last])
    ensures Before(init + [last]) != "" ==> Before(init + [last])[|Before(init + [last])| - 1] == ';'
    ensures Before(init + [last]) == "" <==> init == []
    decreases |init|
  {
    if init == [] {
      assert [] + [last] == [last] && [] + [last, more] == [last, more] && [] + [more] == [more];
      assert [last, more][1..] == [more];
    } else {
      var rest := init[1..];
      JoinEnds(rest, last, more);
      assert (init + [last])[1..] == rest + [last] && (init + [last, more])[1..] == rest + [last, more];
      assert (init + [more])[1..] == rest + [more];
      Ends(init[0], Before(rest + [last]), last, more);
    }
  }

  lemma {:induction false} Ends(head: string, before: string, last: string, more: string)
    ensures head + ";" + (before + last) == (head + ";" + before) + last
    ensures head + ";" + (before + last + ";" + more) == (head + ";" + before) + last + ";" + more
  {
  }

  lemma {:induction false} TrimRightAfter(before: string, last: string)
    requires before == "" || before[|before| - 1] == ';'
    ensures TrimRight(before + last) == before + TrimRight(last)
  {
    var tail := TrimRightSplits(last);
    var kept := before + TrimRight(last);
    assert before + last == kept + tail;
    TrimRightSkips(kept, tail);
  }

  /** The parts once a declaration has been put behind them, the last one trimmed. */
  ghost function WithAppended(init: seq<string>, trimmed: string, name: string, value: string): seq<string> {
    if trimmed != "" then init + [trimmed, Spelled(" ", name, value, false)]
    else if init == [] then [Spelled("", name, value, false)]
    else init + [Spelled(" ", name, value, false)]
  }

  lemma {:induction false} FlatSpelled(before: string, name: string, value: string)
    ensures before + "; " + name + ": " + value == before + ";" + Spelled(" ", name, value, false)
    ensures before + " " + name + ": " + value == before + Spelled(" ", name, value, false)
    ensures name + ": " + value == Spelled("", name, value, false)
  {
    var flat := name + ": " + value;
    assert Spelled(" ", name, value, false) == " " + flat;
    assert before + "; " + name + ": " + value == before + "; " + flat;
    assert before + " " + name + ": " + value == before + " " + flat;
  }

  lemma {:induction false} AppendedJoins(init: seq<string>, last: string, name: string, value: string)
    requires var trimmed := TrimRight(last); trimmed == "" || trimmed[|trimmed| - 1] != ';'
    ensures Appended(Join(init + [last]), name, value) == Join(WithAppended(init, TrimRight(last), name, value))
  {
    var trimmed, more := TrimRight(last), Spelled(" ", name, value, false);
    var before := Before(init + [last]);
    JoinEnds(init, last, more);
    TrimRightAfter(before, last);
    FlatSpelled(before + trimmed, name, value);
    if trimmed != "" {
      JoinEnds(init, trimmed, more);
      LastOfBoth(before, trimmed);
    } else if init != [] {
      JoinEnds(init, more, more);
      assert before + "" == before;
    }
  }

  lemma {:induction false} LastOfBoth(a: string, b: string)
    requires b != ""
    ensures (a + b)[|a + b| - 1] == b[|b| - 1]
  {
  }

  lemma {:induction false} TrimmedIsClosed(last: string)
    requires Closed(last)
    ensures var trimmed := TrimRight(last); Closed(trimmed) && (trimmed == "" || trimmed[|trimmed| - 1] != ';')
  {
    var trimmed := TrimRight(last);
    var tail := TrimRightSplits(last);
    TrimmedCloses(last, |trimmed|);
    assert last[..|trimmed|] == trimmed;
    if trimmed != "" {
      LastIsNoCut(trimmed, 0, Neutral, |trimmed|);
    }
  }

  lemma {:induction false} AppendedParts(init: seq<string>, last: string, name: string, value: string)
    requires ValidName(name) && Allowed(value) && AreParts(init + [last]) && Closed(last)
    ensures AreParts(WithAppended(init, TrimRight(last), name, value))
    ensures var trimmed := TrimRight(last); Closed(trimmed) && (trimmed == "" || trimmed[|trimmed| - 1] != ';')
  {
    TrimmedIsClosed(last);
    SpelledCloses(" ", name, value, false);
    SpelledCloses("", name, value, false);
    ClosedIsUncut(Spelled(" ", name, value, false));
    ClosedIsUncut(Spelled("", name, value, false));
    assert forall i :: 0 <= i < |init| ==> (init + [last])[i] == init[i];
  }

  lemma {:induction false} ParsedWith(init: seq<string>, last: string, name: string, value: string) returns (lead: string)
    requires Closed(last)
    ensures lead == "" || lead == " "
    ensures ParseAll(WithAppended(init, TrimRight(last), name, value))
      == (if TrimRight(last) != "" then ParseAll(init + [last]) else ParseAll(init)) + [Parse(Spelled(lead, name, value, false))]
    ensures TrimRight(last) == "" ==> Parse(last) == None
  {
    TrimmedParses(last);
    lead := if TrimRight(last) == "" && init == [] then "" else " ";
  }

  lemma {:induction false} TrimmedParses(last: string)
    requires Closed(last)
    ensures Parse(TrimRight(last)) == Parse(last) && (TrimRight(last) == "" ==> Parse(last) == None)
  {
    var trimmed := TrimRight(last);
    var tail := TrimRightSplits(last);
    TrimmedCloses(last, |trimmed|);
    assert last[..|trimmed|] == trimmed;
    TailParses(trimmed, tail);
  }

  /** Appending adds one declaration, and changes none. */
  lemma {:induction false} AppendedRelevant(init: seq<string>, last: string, out: seq<string>, added: Option<Declaration>, other: string)
    requires ParseAll(out) == (if TrimRight(last) != "" then ParseAll(init + [last]) else ParseAll(init)) + [added]
    requires TrimRight(last) == "" ==> Parse(last) == None
    ensures Relevant(ParseAll(out), other) == Relevant(ParseAll(init + [last]), other) + Relevant([added], other)
  {
    var was := ParseAll(init + [last]);
    if TrimRight(last) != "" {
      RelevantConcat(was, [added], other);
    } else {
      assert was == ParseAll(init) + [None];
      RelevantConcat(ParseAll(init), [None], other);
      RelevantOne(None, other);
      RelevantConcat(ParseAll(init), [added], other);
      assert Relevant(was, other) == Relevant(ParseAll(init), other);
    }
  }

  lemma {:induction false} NothingRewritten(parts: seq<string>, name: string, value: string, important: bool, placed: bool)
    requires !Present(ParseAll(parts), name)
    ensures Rewritten(parts, name, value, important, placed) == parts
    decreases |parts|
  {
    if parts != [] {
      assert parts == [parts[0]] + parts[1..];
      PresentCons(parts[0], parts[1..], name);
      NothingRewritten(parts[1..], name, value, important, placed);
    }
  }

  lemma {:induction false} NextIsAppended(style: string, name: string, value: string)
    requires value != "" && !Present(ParseAll(Split(style)), name)
    ensures NextText(style, name, value) == Appended(style, name, value)
  {
    var parts := Split(style);
    NothingRewritten(parts, name, value, AnyImportant(ParseAll(parts), name), false);
    JoinSplit(style);
  }

  /** `out` declares what `parts` do, and one thing more. */
  ghost predicate OneMore(parts: seq<string>, out: seq<string>, added: Option<Declaration>) {
    && AreParts(out)
    && forall name :: Relevant(ParseAll(out), name) == Relevant(ParseAll(parts), name) + Relevant([added], name)
  }

  /**
   A property not yet there is appended. Behind a style that closes what it opens it then reads as
   the new value, unless that ends in an importance of its own; every other property reads as before.
   */
  lemma {:induction false} AppendReads(style: string, name: string, value: string, other: string)
    requires ValidName(name) && Allowed(value) && IsTrimmed(value) && value != "" && other != name
    requires !Present(ParseAll(Split(style)), name)
    requires var parts := Split(style); Closed(parts[|parts| - 1])
    ensures var next := NextText(style, name, value);
      && Read(next, other) == Read(style, other)
      && (Read(next, name) == Some(value) <==> !EndsImportant(value))
  {
    NextIsAppended(style, name, value);
    var out, lead := AppendedOut(style, name, value);
    OutReads(Split(style), out, lead, name, value, other);
  }

  lemma {:induction false} OutReads(parts: seq<string>, out: seq<string>, lead: string, name: string, value: string, other: string)
    requires ValidName(name) && Allowed(value) && IsTrimmed(value) && value != "" && other != name && (lead == "" || lead == " ")
    requires OneMore(parts, out, Parse(Spelled(lead, name, value, false))) && !Present(ParseAll(parts), name)
    ensures Read(Join(out), other) == DeclaredValue(Winner(ParseAll(parts), other))
    ensures Read(Join(out), name) == Some(value) <==> !EndsImportant(value)
  {
    SpelledReads(lead, name, value, false);
    var added := Parse(Spelled(lead, name, value, false));
    ReadOneMore(parts, out, added, other);
    ReadItself(parts, out, added, name);
  }

  lemma {:induction false} ReadItself(parts: seq<string>, out: seq<string>, added: Option<Declaration>, name: string)
    requires OneMore(parts, out, added) && Is(added, name) && !Present(ParseAll(parts), name)
    ensures Read(Join(out), name) == Some(added.value.value)
  {
    NoneRelevant(ParseAll(parts), name);
    ReadOneMore(parts, out, added, name);
  }

  lemma {:induction false} AppendedOut(style: string, name: string, value: string) returns (out: seq<string>, lead: string)
    requires ValidName(name) && Allowed(value)
    requires var parts := Split(style); Closed(parts[|parts| - 1])
    ensures lead == "" || lead == " "
    ensures Appended(style, name, value) == Join(out) && OneMore(Split(style), out, Parse(Spelled(lead, name, value, false)))
  {
    var parts := Split(style);
    var init, last := parts[..|parts| - 1], parts[|parts| - 1];
    assert parts == init + [last];
    SplitParts(style);
    JoinSplit(style);
    AppendedParts(init, last, name, value);
    AppendedJoins(init, last, name, value);
    out := WithAppended(init, TrimRight(last), name, value);
    lead := AppendedDeclares(init, last, name, value);
  }

  lemma {:induction false} AppendedDeclares(init: seq<string>, last: string, name: string, value: string) returns (lead: string)
    requires Closed(last)
    ensures lead == "" || lead == " "
    ensures var out := WithAppended(init, TrimRight(last), name, value);
      forall other :: Relevant(ParseAll(out), other) == Relevant(ParseAll(init + [last]), other) + Relevant([Parse(Spelled(lead, name, value, false))], other)
  {
    var out := WithAppended(init, TrimRight(last), name, value);
    lead := ParsedWith(init, last, name, value);
    forall other ensures Relevant(ParseAll(out), other) == Relevant(ParseAll(init + [last]), other) + Relevant([Parse(Spelled(lead, name, value, false))], other) {
      AppendedRelevant(init, last, out, Parse(Spelled(lead, name, value, false)), other);
    }
  }

  /** One declaration more is read where its name is, and nowhere else. */
  lemma {:induction false} ReadOneMore(parts: seq<string>, out: seq<string>, added: Option<Declaration>, name: string)
    requires OneMore(parts, out, added)
    ensures Read(Join(out), name) == DeclaredValue(Best(Relevant(ParseAll(parts), name) + if Is(added, name) then [added.value] else []))
    ensures !Is(added, name) ==> Read(Join(out), name) == DeclaredValue(Winner(ParseAll(parts), name))
    ensures Is(added, name) && Relevant(ParseAll(parts), name) == [] ==> Read(Join(out), name) == Some(added.value.value)
  {
    ReadJoined(out, name);
    RelevantOne(added, name);
    WinnerIsBest(ParseAll(parts), name);
    var found := Relevant(ParseAll(parts), name);
    assert found + [] == found;
    if Is(added, name) && found == [] {
      assert found + [added.value] == [added.value];
      BestOfOne(added.value);
    }
  }

  // ----- the loops -----

  method StripComments(text: string) returns (out: string)
    ensures out == Strip(text, 0, Bare)
  {
    out := [];
    var quote, i := Bare, 0;
    while i < |text|
      invariant quote != Torn && out + Strip(text, i, quote) == Strip(text, 0, Bare)
    {
      var piece, next, on := StripOne(text, i, quote);
      Assoc(out, piece, Strip(text, on, next));
      out, quote, i := out + piece, next, on;
    }
    assert Strip(text, i, quote) == [];
  }

  /** One character, escape or comment. */
  method StripOne(text: string, i: nat, quote: Quote) returns (piece: string, next: Quote, on: nat)
    requires i < |text| && quote != Torn
    ensures i < on && next != Torn && Strip(text, i, quote) == piece + Strip(text, on, next)
  {
    var c := text[i];
    if quote.In? {
      if c == '\\' && i + 1 < |text| {
        return [c, text[i + 1]], quote, i + 2;
      }
      return [c], if c == quote.mark then Bare else quote, i + 1;
    }
    if IsComment(text, i) {
      var end := CommentEnd(text, i + 2);
      return " ", quote, if end.None? then |text| else end.value;
    }
    return [c], if c == '"' || c == '\'' then In(c) else quote, i + 1;
  }

  method ParseDeclaration(part: string) returns (d: Option<Declaration>)
    ensures d == Parse(part)
  {
    var raw := StripComments(part);
    return ParseRaw(raw);
  }

  lemma {:induction false} NextWinner(parts: seq<string>, k: nat, name: string)
    requires k < |parts|
    ensures var before, d := Winner(ParseAll(parts[..k]), name), Parse(parts[k]);
      Winner(ParseAll(parts[..k + 1]), name) == if Is(d, name) && (before.None? || d.value.important || !before.value.important) then d else before
  {
    assert parts[..k + 1][..k] == parts[..k] && ParseAll(parts[..k + 1])[..k] == ParseAll(parts[..k]);
  }

  method ReadStyleVar(style: string, name: string) returns (value: Option<string>)
    ensures value == Read(style, name)
  {
    var winner: Option<Declaration> := None;
    var parts := SplitDeclarations(style);
    for k := 0 to |parts|
      invariant winner == Winner(ParseAll(parts[..k]), name)
    {
      NextWinner(parts, k, name);
      var d := ParseDeclaration(parts[k]);
      if Is(d, name) && (winner.None? || d.value.important || !winner.value.important) {
        winner := d;
      }
    }
    assert parts[..|parts|] == parts;
    return DeclaredValue(winner);
  }

  method HasImportant(decls: seq<Option<Declaration>>, name: string) returns (important: bool)
    ensures important == AnyImportant(decls, name)
  {
    important := false;
    for i := 0 to |decls|
      invariant important == exists k :: 0 <= k < i && Is(decls[k], name) && decls[k].value.important
    {
      if Is(decls[i], name) && decls[i].value.important {
        important := true;
      }
    }
  }

  method WriteStyleVar(style: string, name: string, value: string) returns (next: Option<string>)
    ensures next == Write(style, name, value)
  {
    var parts := SplitDeclarations(style);
    var important := HasImportant(ParseAll(parts), name);
    var out, placed := RewriteParts(parts, name, value, important);
    var text := Join(out);
    if value != "" && !placed {
      text := Appended(text, name, value);
    }
    return if Trim(text) == "" then None else Some(text);
  }

  method RewriteParts(parts: seq<string>, name: string, value: string, important: bool) returns (out: seq<string>, placed: bool)
    ensures out == Rewritten(parts, name, value, important, false)
    ensures value != "" ==> placed == Present(ParseAll(parts), name)
  {
    out, placed := [], false;
    assert parts[0..] == parts;
    for i := 0 to |parts|
      invariant out + Rewritten(parts[i..], name, value, important, placed) == Rewritten(parts, name, value, important, false)
      invariant value != "" ==> placed == exists k :: 0 <= k < i && Is(Parse(parts[k]), name)
    {
      var piece, now := RewriteOne(parts[i], name, value, important, placed, parts[i + 1..]);
      assert parts[i..] == [parts[i]] + parts[i + 1..];
      Assoc(out, piece, Rewritten(parts[i + 1..], name, value, important, now));
      out, placed := out + piece, now;
    }
    assert parts[|parts|..] == [];
  }

  /** The first declaration of `name` is respelled, a later one dropped, anything else kept. */
  method RewriteOne(part: string, name: string, value: string, important: bool, placed: bool, ghost rest: seq<string>) returns (piece: seq<string>, now: bool)
    ensures Rewritten([part] + rest, name, value, important, placed) == piece + Rewritten(rest, name, value, important, now)
    ensures value != "" ==> now == (placed || Is(Parse(part), name))
  {
    assert ([part] + rest)[1..] == rest;
    if !Is(Parse(part), name) {
      return [part], placed;
    }
    if value == "" || placed {
      return [], placed;
    }
    return [Spelled(Lead(part), name, value, important)], true;
  }
}
