/**
 Rewriting attribute values in a page's text (internal/clayruntime/html.go): a URL is put in with as
 much of the file's own spelling kept as can be, all splices are made at once, and the way back undoes them.
 */
module RuntimeHtml {
  import opened Orders
  import opened Sequences
  import opened TextSplice

  // ----- spelling an attribute -----

  /** How the attribute is written: in quotes of one kind, or bare. */
  datatype Quote = Double | Single | Bare

  /** Characters that end or spoil a bare attribute. */
  predicate Awkward(c: char) {
    c == ' ' || ('\t' <= c <= '\r') || c == '"' || c == '\'' || c == '<' || c == '>' || c == '=' || c == '`'
  }

  predicate AnyAwkward(s: string) {
    exists i :: 0 <= i < |s| && Awkward(s[i])
  }

  /** One character as it stands between quotes. */
  function Reference(c: char, quote: Quote): string {
    if c == '&' then "&amp;"
    else if c == '\'' && quote == Single then "&#39;"
    else if c == '"' && quote == Double then "&quot;"
    else [c]
  }

  function Escaped(s: string, quote: Quote): string {
    if s == [] then [] else Reference(s[0], quote) + Escaped(s[1..], quote)
  }

  /** attributeText: a bare value that could not stand bare is put in quotes. */
  function AttributeText(value: string, quote: Quote): string {
    if quote == Bare && AnyAwkward(Escaped(value, Bare)) then "\"" + Escaped(value, Double) + "\"" else Escaped(value, quote)
  }

  /** How many characters two texts share at the end. */
  function Shared(a: string, b: string): (n: nat)
    ensures n <= |a| && n <= |b|
  {
    SharedFrom(a, b, 0)
  }

  function SharedFrom(a: string, b: string, n: nat): (r: nat)
    requires n <= |a| && n <= |b|
    ensures n <= r <= |a| && r <= |b|
    decreases |a| - n
  {
    if n < |a| && n < |b| && a[|a| - 1 - n] == b[|b| - 1 - n] then SharedFrom(a, b, n + 1) else n
  }

  /** The longest tail both texts end in. */
  method CountShared(a: string, b: string) returns (n: nat)
    ensures n == Shared(a, b)
    ensures Last(a, n) == Last(b, n) && (n < |a| && n < |b| ==> a[|a| - 1 - n] != b[|b| - 1 - n])
  {
    n := 0;
    while n < |a| && n < |b| && a[|a| - 1 - n] == b[|b| - 1 - n]
      invariant n <= |a| && n <= |b| && Shared(a, b) == SharedFrom(a, b, n)
    {
      n := n + 1;
    }
    NothingLast(a, b);
    SameTail(a, b, 0);
  }

  lemma {:induction false} NothingLast(a: string, b: string)
    ensures Last(a, 0) == Last(b, 0)
  {
  }

  lemma {:induction false} SharedEitherWay(a: string, b: string, n: nat)
    requires n <= |a| && n <= |b|
    ensures SharedFrom(a, b, n) == SharedFrom(b, a, n)
    decreases |a| - n
  {
    if n < |a| && n < |b| && a[|a| - 1 - n] == b[|b| - 1 - n] {
      SharedEitherWay(a, b, n + 1);
    }
  }

  /** The part of `value` that `replacement` does not end in. */
  function Head(value: string, replacement: string): string {
    value[..|value| - Shared(value, replacement)]
  }

  /** The file's own spelling of the shared tail can be kept. */
  predicate KeepsSpelling(raw: string, value: string, replacement: string, quote: Quote) {
    && '&' !in Head(value, replacement) && Head(value, replacement) <= raw
    && !(quote == Bare && AnyAwkward(Head(replacement, value)))
  }

  /** respelled: `replacement` written where `raw`, which reads as `value`, stood. */
  function Respelled(raw: string, value: string, replacement: string, quote: Quote): string {
    if !KeepsSpelling(raw, value, replacement, quote) then AttributeText(replacement, quote)
    else AttributeText(Head(replacement, value), quote) + raw[|Head(value, replacement)|..]
  }

  method Respell(raw: string, value: string, replacement: string, quote: Quote) returns (out: string)
    ensures out == Respelled(raw, value, replacement, quote)
  {
    var shared := CountShared(value, replacement);
    SharedEitherWay(value, replacement, 0);
    var head, newHead := value[..|value| - shared], replacement[..|replacement| - shared];
    assert head == Head(value, replacement) && newHead == Head(replacement, value);
    if '&' in head || !(head <= raw) {
      return AttributeText(replacement, quote);
    }
    if quote == Bare && AnyAwkward(newHead) {
      return AttributeText(replacement, quote);
    }
    return AttributeText(newHead, quote) + raw[|head|..];
  }

  // ----- undoing a rewrite -----

  /** Text that stands for itself in this attribute, as part of it. */
  predicate Literal(s: string, quote: Quote) {
    && '&' !in s
    && match quote
       case Double => '"' !in s
       case Single => '\'' !in s
       case Bare => !AnyAwkward(s)
  }

  lemma {:induction false} LiteralIsItself(s: string, quote: Quote)
    requires '&' !in s && (quote == Double ==> '"' !in s) && (quote == Single ==> '\'' !in s)
    ensures Escaped(s, quote) == s
  {
    if s != [] {
      assert s[0] in s;
      assert s[1..] == s[1..|s|] && forall c :: c in s[1..] ==> c in s;
      LiteralIsItself(s[1..], quote);
      assert Reference(s[0], quote) == [s[0]];
      assert s == [s[0]] + s[1..];
    }
  }

  lemma {:induction false} LiteralText(s: string, quote: Quote)
    requires Literal(s, quote)
    ensures AttributeText(s, quote) == s
  {
    LiteralIsItself(s, quote);
  }

  lemma {:induction false} EscapedConcat(a: string, b: string, quote: Quote)
    ensures Escaped(a + b, quote) == Escaped(a, quote) + Escaped(b, quote)
  {
    if a == [] {
      assert a + b == b;
    } else {
      assert (a + b)[0] == a[0] && (a + b)[1..] == a[1..] + b;
      EscapedConcat(a[1..], b, quote);
      Assoc(Reference(a[0], quote), Escaped(a[1..], quote), Escaped(b, quote));
    }
  }

  lemma {:induction false} Parts(value: string, local: string)
    ensures var tail := value[|value| - Shared(value, local)..];
      value == Head(value, local) + tail && local == Head(local, value) + tail
  {
    var n := Shared(value, local);
    SharedEitherWay(value, local, 0);
    assert Last(value, 0) == Last(local, 0);
    SameTail(value, local, 0);
    Halves(value, |value| - n);
    Halves(local, |local| - n);
  }

  function Last(s: string, n: nat): (r: string)
    requires n <= |s|
    ensures |r| == n
  {
    s[|s| - n..]
  }

  lemma {:induction false} SameTail(a: string, b: string, n: nat)
    requires n <= |a| && n <= |b| && Last(a, n) == Last(b, n)
    ensures Last(a, SharedFrom(a, b, n)) == Last(b, SharedFrom(a, b, n))
    decreases |a| - n
  {
    if n < |a| && n < |b| && a[|a| - 1 - n] == b[|b| - 1 - n] {
      OneMore(a, n, a[|a| - 1 - n]);
      OneMore(b, n, b[|b| - 1 - n]);
      SameTail(a, b, n + 1);
    }
  }

  lemma {:induction false} OneMore(s: string, n: nat, c: char)
    requires n < |s| && c == s[|s| - 1 - n]
    ensures Last(s, n + 1) == [c] + Last(s, n)
  {
  }

  lemma {:induction false} Halves(s: string, k: nat)
    requires k <= |s|
    ensures s == s[..k] + s[k..]
  {
  }

  /** A bare value that has to be put in quotes. */
  predicate AddsQuotes(raw: string, value: string, replacement: string, quote: Quote) {
    quote == Bare && !KeepsSpelling(raw, value, replacement, quote) && AnyAwkward(Escaped(replacement, Bare))
  }

  /** The attribute's text between its quotes, once `replacement` is written. */
  function Inner(raw: string, value: string, replacement: string, quote: Quote): string {
    if AddsQuotes(raw, value, replacement, quote) then Escaped(replacement, Double) else Respelled(raw, value, replacement, quote)
  }

  function QuoteThen(raw: string, value: string, replacement: string, quote: Quote): Quote {
    if AddsQuotes(raw, value, replacement, quote) then Double else quote
  }

  function Quoted(s: string): string {
    "\"" + s + "\""
  }

  /** What stands where `raw` stood once `local` was written for `value` and then `again` for `local`. */
  function BackAgain(raw: string, value: string, local: string, again: string, quote: Quote): string {
    var back := Respelled(Inner(raw, value, local, quote), local, again, QuoteThen(raw, value, local, quote));
    if AddsQuotes(raw, value, local, quote) then Quoted(back) else back
  }

  /** A character that ends an attribute. */
  predicate Ends(c: char, quote: Quote) {
    match quote
    case Double => c == '"'
    case Single => c == '\''
    case Bare => c == ' ' || c == '\t' || c == '\n' || c == '\U{0C}' || c == '\r' || c == '>'
  }

  predicate Unended(s: string, quote: Quote) {
    forall i :: 0 <= i < |s| ==> !Ends(s[i], quote)
  }

  /** What can stand in an attribute. */
  predicate Fits(raw: string, quote: Quote) {
    Unended(raw, quote) && (quote == Bare && raw != "" ==> raw[0] != '"' && raw[0] != '\'')
  }

  /** When a URL made local and written back leaves the attribute's bytes as they were. */
  predicate ComesBack(raw: string, value: string, local: string, quote: Quote) {
    if KeepsSpelling(raw, value, local, quote) && Literal(Head(local, value), quote) then
      quote == Bare ==> !AnyAwkward(Head(value, local))
    else
      raw == AttributeText(value, quote) && (quote == Bare ==> !AnyAwkward(local))
  }

  lemma {:induction false} EscapedAwkward(s: string)
    ensures AnyAwkward(Escaped(s, Bare)) <==> AnyAwkward(s)
  {
    if s != [] {
      var front, rest := Reference(s[0], Bare), Escaped(s[1..], Bare);
      EscapedAwkward(s[1..]);
      AwkwardConcat(front, rest);
      AwkwardConcat([s[0]], s[1..]);
      assert s == [s[0]] + s[1..];
      assert "&amp;" == ['&', 'a', 'm', 'p', ';'];
      assert AnyAwkward([s[0]]) <==> Awkward([s[0]][0]);
      assert front == [s[0]] || (front == ['&', 'a', 'm', 'p', ';'] && s[0] == '&');
    }
  }

  lemma {:induction false} AwkwardConcat(a: string, b: string)
    ensures AnyAwkward(a + b) <==> AnyAwkward(a) || AnyAwkward(b)
  {
    var c := a + b;
    assert forall i :: 0 <= i < |a| ==> c[i] == a[i];
    assert forall i :: 0 <= i < |b| ==> c[|a| + i] == b[i];
    if AnyAwkward(c) {
      var i :| 0 <= i < |c| && Awkward(c[i]);
      assert if i < |a| then Awkward(a[i]) else Awkward(b[i - |a|]);
    }
  }

  /** A text that is escaped is no prefix of its own spelling. */
  lemma {:induction false} EscapeShows(s: string, quote: Quote, more: string)
    requires quote != Bare && !Literal(s, quote) && '&' !in s
    ensures !(s <= Escaped(s, quote) + more)
  {
    var front, rest := Reference(s[0], quote), Escaped(s[1..], quote);
    assert s[0] in s && s == [s[0]] + s[1..] && Escaped(s, quote) == front + rest;
    if front == [s[0]] {
      assert forall c :: c in s[1..] ==> c in s;
      EscapeShows(s[1..], quote, more);
      PrefixGoesOn(s, front + rest + more);
      assert (front + rest + more)[1..] == rest + more;
    } else {
      assert front[0] == '&';
      assert (front + rest + more)[0] == '&';
    }
  }

  lemma {:induction false} PrefixGoesOn(s: string, t: string)
    requires s != []
    ensures s <= t ==> t != [] && s[0] == t[0] && s[1..] <= t[1..]
  {
  }

  /** The plain spelling of a value in two parts. */
  lemma {:induction false} PlainSpelling(head: string, tail: string, quote: Quote)
    requires quote == Bare ==> !AnyAwkward(head) && !AnyAwkward(tail)
    ensures AttributeText(head + tail, quote) == Escaped(head, quote) + Escaped(tail, quote)
  {
    EscapedConcat(head, tail, quote);
    if quote == Bare {
      EscapedAwkward(head + tail);
      AwkwardConcat(head, tail);
    }
  }

  lemma {:induction false} BareText(s: string)
    ensures AttributeText(s, Bare) == if AnyAwkward(s) then Quoted(Escaped(s, Double)) else Escaped(s, Bare)
  {
    EscapedAwkward(s);
  }

  /** Where the spelling was kept and the new head stands for itself, only the old head is written again. */
  lemma {:induction false} KeptUndone(raw: string, value: string, local: string, quote: Quote)
    requires KeepsSpelling(raw, value, local, quote) && Literal(Head(local, value), quote) && Fits(raw, quote)
    ensures BackAgain(raw, value, local, value, quote) == raw <==> (quote == Bare ==> !AnyAwkward(Head(value, local)))
  {
    var head, newHead := Head(value, local), Head(local, value);
    var rest := raw[|head|..];
    LiteralText(newHead, quote);
    SharedEitherWay(value, local, 0);
    var raw1 := newHead + rest;
    assert Respelled(raw, value, local, quote) == raw1;
    assert newHead <= raw1 && raw1[|newHead|..] == rest;
    if quote == Bare && AnyAwkward(head) {
      NoQuoteFirst(raw, value);
      BareText(value);
      Parts(value, local);
      AwkwardConcat(head, value[|value| - Shared(value, local)..]);
    } else {
      FitsHead(raw, head, quote);
      LiteralText(head, quote);
      assert raw == head + rest;
    }
  }

  lemma {:induction false} NoQuoteFirst(raw: string, s: string)
    requires Fits(raw, Bare)
    ensures raw != Quoted(Escaped(s, Double))
  {
    assert Quoted(Escaped(s, Double))[0] == '"';
  }

  lemma {:induction false} FitsHead(raw: string, head: string, quote: Quote)
    requires Fits(raw, quote) && head <= raw && '&' !in head && (quote == Bare ==> !AnyAwkward(head))
    ensures Literal(head, quote)
  {
    forall c | c in head ensures !(quote == Double && c == '"') && !(quote == Single && c == '\'') {
      var i :| 0 <= i < |head| && head[i] == c;
      assert raw[i] == c;
    }
  }

  /** Anywhere else the way back leaves the value in its plainest spelling, unless quotes were put in on the way. */
  lemma {:induction false} SettledText(raw: string, value: string, local: string, quote: Quote)
    requires !(KeepsSpelling(raw, value, local, quote) && Literal(Head(local, value), quote)) && !AddsQuotes(raw, value, local, quote)
    ensures BackAgain(raw, value, local, value, quote) == AttributeText(value, quote)
  {
    var head, newHead, tail := Head(value, local), Head(local, value), value[|value| - Shared(value, local)..];
    Parts(value, local);
    SharedEitherWay(value, local, 0);
    var now := Respelled(raw, value, local, quote);
    if '&' !in newHead && newHead <= now {
      NowIs(raw, value, local, quote);
      if quote != Bare && !Literal(newHead, quote) {
        var more := if KeepsSpelling(raw, value, local, quote) then raw[|head|..] else Escaped(tail, quote);
        EscapeShows(newHead, quote, more);
      } else {
        TailEscaped(raw, value, local, quote);
      }
    }
  }

  /** The spelling a rewrite leaves, in two parts. */
  lemma {:induction false} NowIs(raw: string, value: string, local: string, quote: Quote)
    requires !AddsQuotes(raw, value, local, quote)
    ensures var tail := value[|value| - Shared(value, local)..];
      Respelled(raw, value, local, quote) == Escaped(Head(local, value), quote)
        + if KeepsSpelling(raw, value, local, quote) then raw[|Head(value, local)|..] else Escaped(tail, quote)
  {
    var newHead, tail := Head(local, value), value[|value| - Shared(value, local)..];
    Parts(value, local);
    EscapedConcat(newHead, tail, quote);
    if quote == Bare {
      BareText(newHead);
      BareText(local);
      EscapedAwkward(local);
    }
  }

  lemma {:induction false} TailEscaped(raw: string, value: string, local: string, quote: Quote)
    requires !(KeepsSpelling(raw, value, local, quote) && Literal(Head(local, value), quote)) && !AddsQuotes(raw, value, local, quote)
    requires '&' !in Head(local, value) && (quote != Bare ==> Literal(Head(local, value), quote))
    ensures BackAgain(raw, value, local, value, quote) == AttributeText(value, quote)
  {
    var head, newHead, tail := Head(value, local), Head(local, value), value[|value| - Shared(value, local)..];
    Parts(value, local);
    SharedEitherWay(value, local, 0);
    EscapedAwkward(local);
    AwkwardConcat(newHead, tail);
    NowIs(raw, value, local, quote);
    LiteralIsItself(newHead, quote);
    var now := newHead + Escaped(tail, quote);
    assert !KeepsSpelling(raw, value, local, quote) && Respelled(raw, value, local, quote) == now;
    assert newHead <= now && now[|newHead|..] == Escaped(tail, quote);
    if !(quote == Bare && AnyAwkward(head)) {
      PlainSpelling(head, tail, quote);
      if quote == Bare {
        BareText(head);
      }
    }
  }

  /**
   An attribute's bytes come back exactly when the file's spelling could be kept and the heads stand for
   themselves, or when it was in its plainest spelling and no quotes had to be put in.
   */
  lemma {:induction false} RoundTripExactly(raw: string, value: string, local: string, quote: Quote)
    requires Fits(raw, quote)
    ensures BackAgain(raw, value, local, value, quote) == raw <==> ComesBack(raw, value, local, quote)
  {
    if KeepsSpelling(raw, value, local, quote) && Literal(Head(local, value), quote) {
      KeptUndone(raw, value, local, quote);
    } else if AddsQuotes(raw, value, local, quote) {
      EscapedAwkward(local);
      assert BackAgain(raw, value, local, value, quote)[0] == '"';
    } else {
      SettledText(raw, value, local, quote);
      if quote == Bare && AnyAwkward(local) {
        EscapedAwkward(local);
        AwkwardValue(raw, value, local);
        BareText(value);
        NoQuoteFirst(raw, value);
      }
    }
  }

  /** Where an awkward URL was written bare, the awkward part is in the tail both share. */
  lemma {:induction false} AwkwardValue(raw: string, value: string, local: string)
    requires KeepsSpelling(raw, value, local, Bare) && AnyAwkward(local)
    ensures AnyAwkward(value)
  {
    var tail := value[|value| - Shared(value, local)..];
    Parts(value, local);
    AwkwardConcat(Head(local, value), tail);
    AwkwardConcat(Head(value, local), tail);
  }

  // ----- reading what was written -----

  /** Character references and line ends are read one by one, from the left; a carriage return reads as a line feed. */
  ghost predicate Decodes(read: string -> string) {
    && read("") == ""
    && (forall p: string, s: string {:trigger read(p + s)} :: '&' !in p && '\r' !in p ==> read(p + s) == p + read(s))
    && (forall c, q, s: string {:trigger read(Reference(c, q) + s)} :: c != '\r' ==> read(Reference(c, q) + s) == [c] + read(s))
    && forall s: string {:trigger read("\r" + s)} :: read("\r" + s) == "\n" + read(if s != "" && s[0] == '\n' then s[1..] else s)
  }

  lemma {:induction false} EscapedReads(read: string -> string, s: string, quote: Quote, more: string)
    requires Decodes(read) && '\r' !in s
    ensures read(Escaped(s, quote) + more) == s + read(more)
  {
    if s == [] {
      assert Escaped(s, quote) + more == more;
    } else {
      assert s[0] in s && forall c :: c in s[1..] ==> c in s;
      EscapedReads(read, s[1..], quote, more);
      var front, rest := Reference(s[0], quote), Escaped(s[1..], quote);
      Assoc(front, rest, more);
      assert read(front + (rest + more)) == [s[0]] + read(rest + more);
      assert s == [s[0]] + s[1..];
      Assoc([s[0]], s[1..], read(more));
    }
  }

  lemma {:induction false} TextReads(read: string -> string, s: string, quote: Quote)
    requires Decodes(read) && '\r' !in s
    ensures read(Escaped(s, quote)) == s
  {
    EscapedReads(read, s, quote, "");
    assert Escaped(s, quote) + "" == Escaped(s, quote) && s + "" == s;
  }

  /** Text that stands in front of itself read has no carriage return. */
  lemma {:induction false} HeadIsPlain(read: string -> string, head: string, raw: string)
    requires Decodes(read) && '&' !in head && head <= raw && head <= read(raw)
    ensures '\r' !in head
  {
    if head != "" {
      var rest, more := head[1..], raw[1..];
      assert read("\r" + more)[0] == '\n' && (raw[0] == '\r' ==> raw == "\r" + more);
      assert head == [head[0]] + rest && head[0] in head && forall c :: c in rest ==> c in head;
      assert raw == raw[..1] + more && read(raw[..1] + more) == raw[..1] + read(more);
      assert read(raw)[1..] == read(more);
      HeadIsPlain(read, rest, more);
    }
  }

  /** Whatever spelling is kept, the attribute then reads as the URL written. */
  lemma {:induction false} RespelledReads(read: string -> string, raw: string, value: string, replacement: string, quote: Quote)
    requires Decodes(read) && read(raw) == value && '\r' !in replacement
    ensures read(Inner(raw, value, replacement, quote)) == replacement
  {
    TextReads(read, replacement, quote);
    TextReads(read, replacement, Double);
    if KeepsSpelling(raw, value, replacement, quote) {
      var head, newHead := Head(value, replacement), Head(replacement, value);
      Parts(value, replacement);
      HeadIsPlain(read, head, raw);
      assert raw == head + raw[|head|..];
      assert read(head + raw[|head|..]) == head + read(raw[|head|..]);
      assert forall c :: c in newHead ==> c in replacement;
      EscapedReads(read, newHead, quote, raw[|head|..]);
      NowIs(raw, value, replacement, quote);
      Cancel(head, read(raw[|head|..]), value[|value| - Shared(value, replacement)..]);
    }
  }

  lemma {:induction false} Cancel(a: string, b: string, c: string)
    requires a + b == a + c
    ensures b == c
  {
    assert b == (a + b)[|a|..] && c == (a + c)[|a|..];
  }

  // ----- all splices at once -----

  predicate LaterFirst(a: Edit<char>, b: Edit<char>) {
    a.start > b.start
  }

  function Reversed<T>(xs: seq<T>): (r: seq<T>)
    ensures |r| == |xs| && forall i :: 0 <= i < |xs| ==> r[i] == xs[|xs| - 1 - i]
  {
    seq(|xs|, i requires 0 <= i < |xs| => xs[|xs| - 1 - i])
  }

  /** The splices in text order, each apart from the next. */
  ghost predicate InText(edits: seq<Edit<char>>, upto: nat) {
    Ascending(edits, 0, upto) && forall i, j :: 0 <= i < j < |edits| ==> edits[i].start < edits[j].start
  }

  /** applySplices: in whatever order they come, the splices are made from the last one back, and none disturbs another. */
  method ApplySplices(text: string, splices: seq<Edit<char>>, ghost edits: seq<Edit<char>>) returns (out: string)
    requires InText(edits, |text|) && multiset(splices) == multiset(edits)
    ensures out == Patched(text, 0, edits)
  {
    var ordered := SortBy(splices, LaterFirst);
    SameElements(splices, edits);
    SortedIsReversed(splices, edits);
    out := text;
    assert edits[|edits|..] == [];
    for i := 0 to |ordered|
      invariant Ascending(edits[|edits| - i..], 0, |text|) && out == Patched(text, 0, edits[|edits| - i..])
    {
      var k := |edits| - 1 - i;
      assert edits[k..] == [edits[k]] + edits[k + 1..];
      TailAscends(edits, 0, |text|, k);
      PatchInFront(text, edits[k], edits[k + 1..]);
      out := out[..ordered[i].start] + ordered[i].text + out[ordered[i].end..];
    }
    assert edits[0..] == edits;
  }

  lemma {:induction false} TailAscends(edits: seq<Edit<char>>, from: nat, upto: nat, k: nat)
    requires Ascending(edits, from, upto) && k < |edits|
    ensures edits[k].start <= edits[k].end && Ascending(edits[k..], 0, upto) && Ascending(edits[k + 1..], edits[k].end, upto)
    decreases k
  {
    if k > 0 {
      TailAscends(edits[1..], edits[0].end, upto, k - 1);
      assert edits[1..][k - 1..] == edits[k..] && edits[1..][k..] == edits[k + 1..];
    }
  }

  /** The splices are the edits in some order, so none comes twice. */
  lemma {:induction false} SameElements(splices: seq<Edit<char>>, edits: seq<Edit<char>>)
    requires (forall i, j :: 0 <= i < j < |edits| ==> edits[i].start < edits[j].start) && multiset(splices) == multiset(edits)
    ensures forall e :: e in splices <==> e in edits
    ensures forall i, j :: 0 <= i < j < |splices| ==> splices[i] != splices[j]
  {
    assert forall e :: e in splices <==> e in multiset(splices);
    assert forall e :: e in edits <==> e in multiset(edits);
    forall i, j | 0 <= i < j < |splices| ensures splices[i] != splices[j] {
      if splices[i] == splices[j] {
        Twice(splices, i, j);
        Once(edits, splices[i]);
      }
    }
  }

  lemma {:induction false} Twice<T>(xs: seq<T>, i: nat, j: nat)
    requires i < j < |xs| && xs[i] == xs[j]
    ensures multiset(xs)[xs[i]] >= 2
  {
    assert xs == xs[..j] + xs[j..];
    assert xs[..j][i] == xs[i] && xs[j..][0] == xs[i];
    assert xs[i] in multiset(xs[..j]) && xs[i] in multiset(xs[j..]);
  }

  lemma {:induction false} Once(edits: seq<Edit<char>>, e: Edit<char>)
    requires forall i, j :: 0 <= i < j < |edits| ==> edits[i].start < edits[j].start
    ensures multiset(edits)[e] <= 1
  {
    if edits != [] {
      assert edits == [edits[0]] + edits[1..];
      Once(edits[1..], e);
      if e == edits[0] {
        assert e !in edits[1..];
      }
    }
  }

  lemma {:induction false} SortedIsReversed(splices: seq<Edit<char>>, edits: seq<Edit<char>>)
    requires (forall i, j :: 0 <= i < j < |edits| ==> edits[i].start < edits[j].start) && (forall e :: e in splices <==> e in edits)
    requires forall i, j :: 0 <= i < j < |splices| ==> splices[i] != splices[j]
    ensures SortBy(splices, LaterFirst) == Reversed(edits)
  {
    forall i, j | 0 <= i < j < |splices| ensures LaterFirst(splices[i], splices[j]) || LaterFirst(splices[j], splices[i]) {
      StartsTell(edits, splices[i], splices[j]);
    }
    SortInOrder(splices, LaterFirst);
    ReversedHas(edits);
    OneOrder(SortBy(splices, LaterFirst), Reversed(edits), LaterFirst);
  }

  lemma {:induction false} StartsTell(edits: seq<Edit<char>>, a: Edit<char>, b: Edit<char>)
    requires (forall i, j :: 0 <= i < j < |edits| ==> edits[i].start < edits[j].start) && a in edits && b in edits && a != b
    ensures a.start != b.start
  {
    var i :| 0 <= i < |edits| && edits[i] == a;
    var j :| 0 <= j < |edits| && edits[j] == b;
  }

  lemma {:induction false} ReversedHas<T>(xs: seq<T>)
    ensures forall x :: x in Reversed(xs) <==> x in xs
  {
    forall x | x in xs ensures x in Reversed(xs) {
      var i :| 0 <= i < |xs| && xs[i] == x;
      assert Reversed(xs)[|xs| - 1 - i] == x;
    }
  }
}
