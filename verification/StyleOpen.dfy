/**
 Appending a custom property to a style that leaves a quote, bracket or comment open: the new text is
 swallowed by the last part (writeStyleVar of internal/dataapi/stylevars.go).
 */
module StyleOpen {
  import opened Scanner
  import opened Sequences
  import opened StyleVars
  import opened Values

  lemma {:induction false} NoCutWithoutSemicolon(text: string, i: nat, st: State)
    requires forall k :: i <= k < |text| ==> text[k] != ';'
    ensures FirstCut(text, i, st) == None
    decreases |text| - i
  {
    if i < |text| {
      NoCutWithoutSemicolon(text, Step(text, i, st).1, Step(text, i, st).0);
    }
  }

  /** Text that leaves something open is not cut by what follows it, but for a later semicolon. */
  lemma {:induction false} OpenSwallows(text: string, whole: string, i: nat, st: State)
    requires i <= |text| <= |whole| && text == whole[..|text|]
    requires |text| < |whole| ==> whole[|text|] == ';' || whole[|text|] == ' '
    requires forall k :: |text| < k < |whole| ==> whole[k] != ';'
    requires FirstCut(text, i, st) == None && !Reaches(text, i, st, |text|, Neutral) && st.quote != Torn
    ensures FirstCut(whole, i, st) == None
    decreases |text| - i
  {
    if i == |text| {
      if i < |whole| {
        NoCutWithoutSemicolon(whole, Step(whole, i, st).1, Step(whole, i, st).0);
      }
    } else {
      assert whole[i] == text[i];
      SameComment(text, whole, i);
      var s := Step(text, i, st);
      if s.0.quote.Torn? {
        TornEnd(text, whole, i + 2);
        NoCutWithoutSemicolon(whole, Step(whole, i, st).1, Step(whole, i, st).0);
      } else if s.1 > |text| {
        NoCutWithoutSemicolon(whole, s.1, s.0);
      } else {
        OpenSwallows(text, whole, s.1, s.0);
      }
    }
  }

  lemma {:induction false} TornEnd(text: string, whole: string, from: nat)
    requires |text| <= |whole| && text == whole[..|text|] && from <= |text|
    requires |text| < |whole| ==> whole[|text|] == ';' || whole[|text|] == ' '
    requires CommentEnd(text, from) == None
    ensures var end := CommentEnd(whole, from); end.Some? ==> end.value > |text| + 1
    decreases |text| - from
  {
    if from < |text| {
      assert whole[from] == text[from];
      assert from + 1 < |text| ==> whole[from + 1] == text[from + 1];
      TornEnd(text, whole, from + 1);
    }
  }

  lemma {:induction false} OpenTrims(last: string)
    requires FirstCut(last, 0, Neutral) == None && !Closed(last)
    ensures var trimmed := TrimRight(last); trimmed != "" && FirstCut(trimmed, 0, Neutral) == None && !Closed(trimmed)
  {
    var trimmed := TrimRight(last);
    var tail := TrimRightSplits(last);
    if Closed(trimmed) {
      Transfer(trimmed, 0, Neutral, |trimmed|, Neutral, last, 0);
      InertReaches(last, |trimmed|, |last|);
      ReachesOn(last, 0, Neutral, |trimmed|, Neutral, |last|, Neutral);
    }
    var cut := FirstCut(trimmed, 0, Neutral);
    if cut.Some? {
      CutIsReached(trimmed, 0, Neutral);
      Transfer(trimmed, 0, Neutral, cut.value, Neutral, last, 0);
      CutAfter(last, 0, Neutral, cut.value, Neutral);
    }
  }

  lemma {:induction false} OpenLast(last: string, name: string, value: string) returns (whole: string)
    requires ValidName(name) && Allowed(value)
    requires FirstCut(last, 0, Neutral) == None && !Closed(last)
    ensures FirstCut(whole, 0, Neutral) == None
    ensures var trimmed := TrimRight(last);
      && trimmed != ""
      && whole == trimmed + (if trimmed[|trimmed| - 1] == ';' then " " else "; ") + name + ": " + value
  {
    OpenTrims(last);
    var trimmed := TrimRight(last);
    var sep := if trimmed[|trimmed| - 1] == ';' then " " else "; ";
    whole := trimmed + sep + name + ": " + value;
    assert whole[..|trimmed|] == trimmed && whole[|trimmed|] == sep[0];
    OnlyOneSemicolon(trimmed, sep, name, value);
    OpenSwallows(trimmed, whole, 0, Neutral);
  }

  lemma {:induction false} OnlyOneSemicolon(trimmed: string, sep: string, name: string, value: string)
    requires ValidName(name) && Allowed(value) && (sep == " " || sep == "; ")
    ensures var whole := trimmed + sep + name + ": " + value; forall k :: |trimmed| < k < |whole| ==> whole[k] != ';'
  {
    var front := trimmed + sep;
    var whole := front + name + ": " + value;
    forall k | |trimmed| < k < |whole| ensures whole[k] != ';' {
      if |front| <= k < |front| + |name| {
        assert whole[k] == name[k - |front|];
      } else if k >= |front| + |name| + 2 {
        assert whole[k] == value[k - |front| - |name| - 2];
      }
    }
  }

  // ----- the part that swallows it -----

  function Swallowing(last: string, name: string, value: string): string {
    var trimmed := TrimRight(last);
    trimmed + Between(trimmed) + name + ": " + value
  }

  function Between(trimmed: string): string {
    if trimmed != "" && trimmed[|trimmed| - 1] == ';' then " " else "; "
  }

  /** Behind a style that leaves something open, the new declaration is none of its own. */
  lemma {:induction false} OpenAppends(style: string, name: string, value: string)
    requires ValidName(name) && Allowed(value) && value != ""
    requires !Present(ParseAll(Split(style)), name)
    requires !Closed(Split(style)[|Split(style)| - 1])
    ensures var parts := Split(style);
      Split(NextText(style, name, value)) == parts[..|parts| - 1] + [Swallowing(parts[|parts| - 1], name, value)]
  {
    var parts := Split(style);
    assert parts == parts[..|parts| - 1] + [parts[|parts| - 1]];
    SplitParts(style);
    JoinSplit(style);
    NextIsAppended(style, name, value);
    PartSwallows(parts[..|parts| - 1], parts[|parts| - 1], name, value);
  }

  lemma {:induction false} PartSwallows(init: seq<string>, last: string, name: string, value: string)
    requires ValidName(name) && Allowed(value) && AreParts(init + [last]) && !Closed(last)
    ensures Split(Appended(Join(init + [last]), name, value)) == init + [Swallowing(last, name, value)]
  {
    assert (init + [last])[|init|] == last;
    var whole := OpenLast(last, name, value);
    OpenJoins(init, last, whole, name, value);
    LastReplaced(init, last, whole);
    SplitJoin(init + [whole]);
  }

  lemma {:induction false} LastReplaced(init: seq<string>, last: string, whole: string)
    requires AreParts(init + [last]) && FirstCut(whole, 0, Neutral) == None
    ensures AreParts(init + [whole])
  {
    assert forall i :: 0 <= i < |init| ==> (init + [whole])[i] == (init + [last])[i];
  }

  lemma {:induction false} OpenJoins(init: seq<string>, last: string, whole: string, name: string, value: string)
    requires var trimmed := TrimRight(last);
      && trimmed != ""
      && whole == trimmed + (if trimmed[|trimmed| - 1] == ';' then " " else "; ") + name + ": " + value
    ensures Appended(Join(init + [last]), name, value) == Join(init + [whole])
  {
    var trimmed, before := TrimRight(last), Before(init + [last]);
    JoinEnds(init, last, whole);
    JoinEnds(init, whole, whole);
    TrimRightAfter(before, last);
    LastOfBoth(before, trimmed);
    Flat(before, trimmed, if trimmed[|trimmed| - 1] == ';' then " " else "; ", name, value);
  }

  lemma {:induction false} Flat(before: string, trimmed: string, sep: string, name: string, value: string)
    ensures (before + trimmed) + sep + name + ": " + value == before + (trimmed + sep + name + ": " + value)
  {
  }

  // ----- what a longer text strips to -----

  /** One turn of the stripping: what it leaves, where it goes on, and in which quote. */
  function One(text: string, i: nat, quote: Quote): (r: (string, nat, Quote))
    requires i < |text|
    ensures i < r.1 && |r.0| <= r.1 - i && (quote.Torn? || r.2.Torn? || r.1 <= |text|)
  {
    var c := text[i];
    if quote.In? then
      if c == '\\' && i + 1 < |text| then ([c, text[i + 1]], i + 2, quote)
      else ([c], i + 1, if c == quote.mark then Bare else quote)
    else if IsComment(text, i) then
      var end := CommentEnd(text, i + 2);
      if end.None? then (" ", |text|, Torn) else (" ", end.value, quote)
    else ([c], i + 1, if c == '"' || c == '\'' then In(c) else quote)
  }

  lemma {:induction false} OneStrips(text: string, i: nat, quote: Quote)
    requires i < |text| && quote != Torn
    ensures var r := One(text, i, quote);
      Strip(text, i, quote) == r.0 + if r.2.Torn? then "" else Strip(text, r.1, r.2)
  {
    if quote.In? {
      QuoteStrips(text, i, quote);
    } else if IsComment(text, i) {
      CommentStrips(text, i, quote);
    } else {
      BareStrips(text, i, quote);
    }
  }

  lemma {:induction false} QuoteStrips(text: string, i: nat, quote: Quote)
    requires i < |text| && quote.In?
    ensures Strip(text, i, quote) ==
      if text[i] == '\\' && i + 1 < |text| then [text[i], text[i + 1]] + Strip(text, i + 2, quote)
      else [text[i]] + Strip(text, i + 1, if text[i] == quote.mark then Bare else quote)
  {
  }

  lemma {:induction false} CommentStrips(text: string, i: nat, quote: Quote)
    requires i < |text| && quote.Bare? && IsComment(text, i)
    ensures Strip(text, i, quote) == " " + if CommentEnd(text, i + 2).None? then "" else Strip(text, CommentEnd(text, i + 2).value, quote)
  {
  }

  lemma {:induction false} BareStrips(text: string, i: nat, quote: Quote)
    requires i < |text| && quote.Bare? && !IsComment(text, i)
    ensures Strip(text, i, quote) == [text[i]] + Strip(text, i + 1, if text[i] == '"' || text[i] == '\'' then In(text[i]) else quote)
  {
  }

  /** What stripping ends in: a quote left open, or a comment. */
  function StripEnd(text: string, i: nat, quote: Quote): Quote
    decreases |text| - i
  {
    if i >= |text| then quote
    else
      var r := One(text, i, quote);
      if r.2.Torn? then Torn else StripEnd(text, r.1, r.2)
  }

  /** The text stops inside a comment. */
  predicate LeavesComment(part: string) {
    StripEnd(TrimRight(part), 0, Bare) == Torn
  }

  /** A character that starts, ends or escapes nothing, wherever it stands. */
  predicate Quiet(c: char) {
    c != '/' && c != '*' && c != '\\' && c != '"' && c != '\''
  }

  ghost predicate Extends(text: string, whole: string) {
    |text| <= |whole| && text == whole[..|text|] && (|text| < |whole| ==> Quiet(whole[|text|]))
  }

  lemma {:induction false} StillTorn(text: string, whole: string, from: nat)
    requires Extends(text, whole) && from <= |text| && CommentEnd(text, from) == None
    ensures CommentEnd(whole, from) == CommentEnd(whole, |text|)
    decreases |text| - from
  {
    if from < |text| {
      assert whole[from] == text[from];
      assert from + 1 < |text| ==> whole[from + 1] == text[from + 1];
      StillTorn(text, whole, from + 1);
    }
  }

  /** What is stripped of the longer text, once the shorter one has been. */
  function After(whole: string, at: nat, end: Quote): string {
    if end.Torn? then if CommentEnd(whole, at).None? then "" else Strip(whole, CommentEnd(whole, at).value, Bare)
    else Strip(whole, at, end)
  }

  /** A quote a scan can be in. */
  predicate Opens(quote: Quote) {
    match quote
    case Bare => true
    case In(mark) => mark == '"' || mark == '\''
    case Torn => false
  }

  lemma {:induction false} OneOpens(text: string, i: nat, quote: Quote)
    requires i < |text| && Opens(quote)
    ensures One(text, i, quote).2 == Torn || Opens(One(text, i, quote).2)
  {
  }

  /** The longer text takes the same turn, but for an escape it completes and a comment it may end. */
  lemma {:induction false} OneExtends(text: string, whole: string, i: nat, quote: Quote)
    requires Extends(text, whole) && i < |text| && Opens(quote)
    ensures var r := One(text, i, quote);
      if r.2.Torn? then CommentEnd(whole, i + 2) == CommentEnd(whole, |text|) && IsComment(whole, i) && quote.Bare?
      else One(whole, i, quote) == r || (r == (['\\'], |text|, quote) && |text| < |whole| && quote.In? && One(whole, i, quote) == (['\\', whole[|text|]], |text| + 1, quote))
  {
    assert whole[i] == text[i] && (i + 1 < |text| ==> whole[i + 1] == text[i + 1]);
    if quote.Bare? && IsComment(text, i) {
      if CommentEnd(text, i + 2).None? {
        StillTorn(text, whole, i + 2);
      } else {
        CommentEndMoves(text, whole, i + 2, 0);
      }
    }
  }

  lemma {:induction false} StripExtends(text: string, whole: string, i: nat, quote: Quote)
    requires Extends(text, whole) && i <= |text| && Opens(quote)
    ensures Strip(whole, i, quote) == Strip(text, i, quote) + After(whole, |text|, StripEnd(text, i, quote))
    decreases |text| - i
  {
    if i < |text| {
      var r := One(text, i, quote);
      OneExtends(text, whole, i, quote);
      OneStrips(text, i, quote);
      OneStrips(whole, i, quote);
      OneOpens(text, i, quote);
      if !r.2.Torn? {
        StripExtends(text, whole, r.1, r.2);
        if One(whole, i, quote) == r {
          Assoc(r.0, Strip(text, r.1, r.2), After(whole, |text|, StripEnd(text, r.1, r.2)));
        } else {
          QuoteStrips(whole, |text|, quote);
          Assoc(['\\'], [whole[|text|]], Strip(whole, |text| + 1, quote));
        }
      }
    }
  }

  /** Quiet characters stay, in a quote or out of one. */
  lemma {:induction false} QuietStrips(text: string, i: nat, b: nat, quote: Quote)
    requires i <= b <= |text| && Opens(quote) && forall k :: i <= k < b ==> Quiet(text[k])
    ensures Strip(text, i, quote) == text[i..b] + Strip(text, b, quote)
    decreases b - i
  {
    if i < b {
      QuietStrips(text, i + 1, b, quote);
      assert text[i..b] == [text[i]] + text[i + 1..b];
      Assoc([text[i]], text[i + 1..b], Strip(text, b, quote));
    }
  }

  lemma {:induction false} EndOpens(text: string, i: nat, quote: Quote)
    requires Opens(quote)
    ensures StripEnd(text, i, quote) == Torn || Opens(StripEnd(text, i, quote))
    decreases |text| - i
  {
    if i < |text| {
      OneOpens(text, i, quote);
      if !One(text, i, quote).2.Torn? {
        EndOpens(text, One(text, i, quote).1, One(text, i, quote).2);
      }
    }
  }

  lemma {:induction false} QuietNoEnd(text: string, from: nat, b: nat)
    requires from <= b <= |text| && forall k :: from <= k < b ==> Quiet(text[k])
    ensures CommentEnd(text, from) == CommentEnd(text, b)
    decreases b - from
  {
    if from < b {
      QuietNoEnd(text, from + 1, b);
    }
  }

  lemma {:induction false} StripShorter(text: string, i: nat, quote: Quote)
    requires i <= |text| && quote != Torn
    ensures |Strip(text, i, quote)| <= |text| - i
    decreases |text| - i
  {
    if i < |text| {
      var r := One(text, i, quote);
      OneStrips(text, i, quote);
      if !r.2.Torn? {
        StripShorter(text, r.1, r.2);
      }
    }
  }

  /** Trailing white space of a part is stripped with a comment left open, and kept otherwise. */
  lemma {:induction false} TailStrips(last: string) returns (tail: string)
    ensures Blank(tail) && Strip(last, 0, Bare) == Strip(TrimRight(last), 0, Bare) + if LeavesComment(last) then "" else tail
  {
    var trimmed := TrimRight(last);
    tail := TrimRightSplits(last);
    assert trimmed + tail + "" == last && tail + "" == tail;
    if tail != "" {
      SpacesQuiet(tail);
      PastMiddle(trimmed, tail, "");
    }
  }

  lemma {:induction false} SpacesQuiet(tail: string)
    requires Blank(tail)
    ensures forall k :: 0 <= k < |tail| ==> Quiet(tail[k])
  {
    forall k | 0 <= k < |tail| ensures Quiet(tail[k]) {
      assert IsSpace(tail[k]);
    }
  }

  /** What stands between the old text and the new value. */
  function Middle(trimmed: string, name: string): string {
    Between(trimmed) + name + ": "
  }

  lemma {:induction false} MiddleQuiet(trimmed: string, name: string)
    requires ValidName(name)
    ensures forall k :: 0 <= k < |Middle(trimmed, name)| ==> Quiet(Middle(trimmed, name)[k])
  {
    var sep := Between(trimmed);
    forall k | 0 <= k < |Middle(trimmed, name)| ensures Quiet(Middle(trimmed, name)[k]) {
      if |sep| <= k < |sep| + |name| {
        assert Middle(trimmed, name)[k] == name[k - |sep|];
      }
    }
  }

  /** Inside a comment nothing is added, unless the value ends it. */
  lemma {:induction false} CommentWhole(last: string, name: string, value: string)
    requires ValidName(name) && LeavesComment(last)
    ensures Strip(Swallowing(last, name, value), 0, Bare) == Strip(last, 0, Bare) + Escaping(TrimRight(last), Middle(TrimRight(last), name), value)
  {
    var tail := TailStrips(last);
    MiddleQuiet(TrimRight(last), name);
    WholeIs(last, name, value);
    PastMiddle(TrimRight(last), Middle(TrimRight(last), name), value);
  }

  /** What of the value stands behind an end-of-comment mark in it. */
  function Escaping(trimmed: string, middle: string, value: string): string {
    var end := CommentEnd(value, 0);
    if end.None? then "" else Strip(trimmed + middle + value, |trimmed| + |middle| + end.value, Bare)
  }

  /** Anywhere else all of it is added. */
  lemma {:induction false} KeptWhole(last: string, name: string, value: string)
    requires ValidName(name) && !LeavesComment(last)
    ensures var trimmed := TrimRight(last);
      var middle := Middle(trimmed, name);
      Strip(Swallowing(last, name, value), 0, Bare) == Strip(trimmed, 0, Bare) + (middle + PastText(trimmed, middle, value))
  {
    MiddleQuiet(TrimRight(last), name);
    WholeIs(last, name, value);
    PastMiddle(TrimRight(last), Middle(TrimRight(last), name), value);
  }

  function PastText(trimmed: string, middle: string, value: string): string {
    Strip(trimmed + middle + value, |trimmed| + |middle|, StripEnd(trimmed, 0, Bare))
  }

  /** The text from the value on, once what stands before it has been stripped. */
  lemma {:induction false} PastMiddle(trimmed: string, middle: string, value: string)
    requires middle != "" && forall k :: 0 <= k < |middle| ==> Quiet(middle[k])
    ensures var whole, end := trimmed + middle + value, StripEnd(trimmed, 0, Bare);
      Strip(whole, 0, Bare) == Strip(trimmed, 0, Bare) +
        if end.Torn? then Escaping(trimmed, middle, value) else middle + PastText(trimmed, middle, value)
  {
    var whole, a, b, end := trimmed + middle + value, |trimmed|, |trimmed| + |middle|, StripEnd(trimmed, 0, Bare);
    MiddleStands(trimmed, middle, value);
    StripExtends(trimmed, whole, 0, Bare);
    EndOpens(trimmed, 0, Bare);
    if end.Torn? {
      TornMiddle(whole, a, b, value);
    } else {
      QuietStrips(whole, a, b, end);
    }
  }

  lemma {:induction false} MiddleStands(trimmed: string, middle: string, value: string)
    requires middle != "" && forall k :: 0 <= k < |middle| ==> Quiet(middle[k])
    ensures var whole, a, b := trimmed + middle + value, |trimmed|, |trimmed| + |middle|;
      Extends(trimmed, whole) && whole[a..b] == middle && whole[b..] == value && forall k :: a <= k < b ==> Quiet(whole[k])
  {
    var whole, a, b := trimmed + middle + value, |trimmed|, |trimmed| + |middle|;
    assert forall k :: a <= k < b ==> whole[k] == middle[k - a];
  }

  lemma {:induction false} TornMiddle(whole: string, a: nat, b: nat, value: string)
    requires a <= b <= |whole| && whole[b..] == value && forall k :: a <= k < b ==> Quiet(whole[k])
    ensures CommentEnd(whole, a) == if CommentEnd(value, 0).None? then None else Some(b + CommentEnd(value, 0).value)
  {
    QuietNoEnd(whole, a, b);
    CommentEndDrops(whole, b, 0);
  }

  lemma {:induction false} WholeIs(last: string, name: string, value: string)
    ensures Swallowing(last, name, value) == TrimRight(last) + Middle(TrimRight(last), name) + value
  {
  }

  // ----- what the part then declares -----

  lemma {:induction false} ColonStays(raw: string, more: string)
    requires ':' in raw
    ensures ParseRaw(raw + more).Some? && ParseRaw(raw).Some? && ParseRaw(raw + more).value.name == ParseRaw(raw).value.name
    ensures var at := IndexOfChar(raw, ':').value;
      ParseRaw(raw + more) == Some(Declared(Trim(raw[..at]), Trim(raw[at + 1..] + more)))
  {
    var at := IndexOfChar(raw, ':').value;
    var before, after := raw[..at], raw[at + 1..];
    assert raw == before + ":" + after && raw + more == before + ":" + (after + more);
    ColonFound(before, after);
    ColonFound(before, after + more);
    assert (raw + more)[..at] == before && (raw + more)[at + 1..] == after + more;
  }

  /** A value is never longer than what stands behind its colon. */
  lemma {:induction false} DeclaredShorter(name: string, after: string)
    ensures |Declared(name, Trim(after)).value| <= |after|
  {
    TrimShorter(after);
    var value := Trim(after);
    var at := ImportantAt(value, 0);
    if at.Some? {
      TrimShorter(value[..at.value]);
    }
  }

  /** A part without a colon takes the first one behind it, with all that stands before it in the name. */
  lemma {:induction false} ColonBehind(raw: string, more: string)
    requires ':' !in raw
    ensures var d := ParseRaw(raw + more);
      d.Some? ==> (':' in more && |d.value.value| < |more| && d.value.name == Trim(raw + more[..IndexOfChar(more, ':').value]))
  {
    var at := IndexOfChar(more, ':');
    if at.Some? {
      var before, after := raw + more[..at.value], more[at.value + 1..];
      assert more == more[..at.value] + ":" + after;
      assert raw + more == before + ":" + after;
      ColonFound(before, after);
      assert (raw + more)[..|before|] == before && (raw + more)[|before| + 1..] == after;
      DeclaredShorter(Trim(before), after);
    } else {
      assert ':' !in raw + more;
    }
  }

  lemma {:induction false} EscapingShorter(trimmed: string, middle: string, value: string)
    ensures CommentEnd(value, 0).Some? ==> |Escaping(trimmed, middle, value)| + 2 <= |value|
  {
    if CommentEnd(value, 0).Some? {
      StripShorter(trimmed + middle + value, |trimmed| + |middle| + CommentEnd(value, 0).value, Bare);
    }
  }

  /** A text that ends in a semicolon outside any comment keeps it. */
  lemma {:induction false} LastKept(text: string, i: nat, quote: Quote)
    requires i < |text| && text[|text| - 1] == ';' && Opens(quote) && !StripEnd(text, i, quote).Torn?
    ensures ';' in Strip(text, i, quote)
    decreases |text| - i
  {
    var r := One(text, i, quote);
    OneStrips(text, i, quote);
    OneOpens(text, i, quote);
    if r.1 < |text| {
      LastKept(text, r.1, r.2);
    } else {
      LastTurn(text, i, quote);
    }
  }

  lemma {:induction false} LastTurn(text: string, i: nat, quote: Quote)
    requires i < |text| && text[|text| - 1] == ';' && quote != Torn && !One(text, i, quote).2.Torn? && One(text, i, quote).1 == |text|
    ensures ';' in One(text, i, quote).0
  {
    assert i == |text| - 1 || i == |text| - 2 || IsComment(text, i);
  }

  /** Before the name there is always a semicolon. */
  lemma {:induction false} SemicolonBefore(last: string)
    requires !LeavesComment(last)
    ensures var trimmed := TrimRight(last); ';' in Strip(trimmed, 0, Bare) + Between(trimmed)
  {
    var trimmed := TrimRight(last);
    if trimmed != "" && trimmed[|trimmed| - 1] == ';' {
      LastKept(trimmed, 0, Bare);
    }
  }

  /** What the swallowing part declares, when the last part did not declare `name`. */
  lemma {:induction false} SwallowingDeclares(last: string, name: string, value: string)
    requires ValidName(name) && !Is(Parse(last), name) && value != ""
    ensures var whole := Parse(Swallowing(last, name, value));
      && (Is(whole, name) ==> |whole.value.value| < |value| && LeavesComment(last) && CommentEnd(value, 0).Some?)
      && (LeavesComment(last) ==> whole == ParseRaw(Strip(last, 0, Bare) + Escaping(TrimRight(last), Middle(TrimRight(last), name), value)))
  {
    if LeavesComment(last) {
      CommentWhole(last, name, value);
      EscapingShorter(TrimRight(last), Middle(TrimRight(last), name), value);
      CommentDeclares(Strip(last, 0, Bare), Escaping(TrimRight(last), Middle(TrimRight(last), name), value), name);
    } else {
      KeptDeclares(last, name, value);
    }
  }

  lemma {:induction false} CommentDeclares(raw: string, more: string, name: string)
    requires !Is(ParseRaw(raw), name)
    ensures var whole := ParseRaw(raw + more); Is(whole, name) ==> |whole.value.value| < |more|
  {
    if ':' in raw {
      ColonStays(raw, more);
    } else {
      ColonBehind(raw, more);
    }
  }

  lemma {:induction false} SameBefore(last: string)
    requires !LeavesComment(last)
    ensures ':' in Strip(last, 0, Bare) <==> ':' in Strip(TrimRight(last), 0, Bare)
    ensures ':' in Strip(TrimRight(last), 0, Bare) ==>
      Parse(last).Some? && ParseRaw(Strip(TrimRight(last), 0, Bare)).Some? && Parse(last).value.name == ParseRaw(Strip(TrimRight(last), 0, Bare)).value.name
  {
    var raw := Strip(TrimRight(last), 0, Bare);
    var tail := TailStrips(last);
    forall k | 0 <= k < |tail| ensures tail[k] != ':' {
      assert IsSpace(tail[k]);
    }
    if ':' in raw {
      ColonStays(raw, tail);
    }
  }

  lemma {:induction false} KeptDeclares(last: string, name: string, value: string)
    requires ValidName(name) && !Is(Parse(last), name) && !LeavesComment(last)
    ensures !Is(Parse(Swallowing(last, name, value)), name)
  {
    var trimmed := TrimRight(last);
    var raw, middle := Strip(trimmed, 0, Bare), Middle(trimmed, name);
    var more := middle + PastText(trimmed, middle, value);
    KeptWhole(last, name, value);
    SameBefore(last);
    if ':' in raw {
      ColonStays(raw, more);
    } else {
      SemicolonBefore(last);
      ColonBehind(raw, more);
      ColonOfName(trimmed, name, PastText(trimmed, middle, value));
      GarbledName(raw + (Between(trimmed) + name), name);
    }
  }

  lemma {:induction false} ColonOfName(trimmed: string, name: string, past: string)
    requires ValidName(name)
    ensures var more := Middle(trimmed, name) + past;
      IndexOfChar(more, ':') == Some(|Between(trimmed) + name|) && more[..|Between(trimmed) + name|] == Between(trimmed) + name
  {
    var front := Between(trimmed) + name;
    assert Middle(trimmed, name) + past == front + ":" + (" " + past);
    forall k | 0 <= k < |front| ensures front[k] != ':' {
      if k >= |Between(trimmed)| {
        assert front[k] == name[k - |Between(trimmed)|];
      }
    }
    ColonFound(front, " " + past);
  }

  lemma {:induction false} GarbledName(before: string, name: string)
    requires ValidName(name) && ';' in before
    ensures Trim(before) != name
  {
    TrimShorter(before);
    assert ';' in Trim(before);
  }

  // ----- what a write behind an open style then reads as -----

  lemma {:induction false} ReadSplit(init: seq<string>, part: string, name: string)
    ensures Winner(ParseAll(init + [part]), name) == Best(Relevant(ParseAll(init), name) + if Is(Parse(part), name) then [Parse(part).value] else [])
  {
    WinnerIsBest(ParseAll(init + [part]), name);
    assert ParseAll(init + [part]) == ParseAll(init) + [Parse(part)];
    RelevantConcat(ParseAll(init), [Parse(part)], name);
    RelevantOne(Parse(part), name);
  }

  lemma {:induction false} NotInParts(init: seq<string>, last: string, name: string)
    requires !Present(ParseAll(init + [last]), name)
    ensures Relevant(ParseAll(init), name) == [] && !Is(Parse(last), name)
  {
    var parts := init + [last];
    NoneRelevant(ParseAll(init), name);
    assert ParseAll(parts)[|init|] == Parse(last);
    forall i | 0 <= i < |init| ensures !Is(ParseAll(init)[i], name) {
      assert parts[i] == init[i] && !Is(ParseAll(parts)[i], name);
    }
  }

  /** The parts behind an open style, and what the new last one declares. */
  lemma {:induction false} OpenParts(style: string, name: string, value: string) returns (init: seq<string>, last: string, whole: string)
    requires ValidName(name) && Allowed(value) && value != ""
    requires !Present(ParseAll(Split(style)), name)
    requires !Closed(Split(style)[|Split(style)| - 1])
    ensures Split(style) == init + [last] && Split(NextText(style, name, value)) == init + [whole] && whole == Swallowing(last, name, value)
    ensures Relevant(ParseAll(init), name) == [] && !Is(Parse(last), name)
  {
    var parts := Split(style);
    init, last := parts[..|parts| - 1], parts[|parts| - 1];
    whole := Swallowing(last, name, value);
    assert parts == init + [last];
    OpenAppends(style, name, value);
    NotInParts(init, last, name);
  }

  lemma {:induction false} OpenReadsName(init: seq<string>, last: string, name: string, value: string)
    requires ValidName(name) && value != "" && Relevant(ParseAll(init), name) == [] && !Is(Parse(last), name)
    ensures var read := DeclaredValue(Winner(ParseAll(init + [Swallowing(last, name, value)]), name));
      read != Some(value) && (!LeavesComment(last) || CommentEnd(value, 0).None? ==> read == None)
  {
    var whole := Swallowing(last, name, value);
    SwallowingDeclares(last, name, value);
    ReadSplit(init, whole, name);
    if Is(Parse(whole), name) {
      assert [] + [Parse(whole).value] == [Parse(whole).value];
      BestOfOne(Parse(whole).value);
    }
  }

  lemma {:induction false} OpenReadsOther(init: seq<string>, last: string, name: string, value: string, other: string)
    requires ValidName(name) && value != "" && !Is(Parse(last), name) && ValidName(other)
    requires if LeavesComment(last) then CommentEnd(value, 0).None? else !Is(Parse(last), other)
    ensures Winner(ParseAll(init + [Swallowing(last, name, value)]), other) == Winner(ParseAll(init + [last]), other)
  {
    ReadSplit(init, Swallowing(last, name, value), other);
    ReadSplit(init, last, other);
    if LeavesComment(last) {
      SwallowingDeclares(last, name, value);
      assert Strip(last, 0, Bare) + "" == Strip(last, 0, Bare);
    } else {
      OthersKeptOpen(last, name, value, other);
    }
  }

  /**
   The value written does not read back. Inside a comment nothing at all changes, unless the value ends
   the comment. Behind an open quote or bracket the property stays absent, and what changes is the
   property the last part declares, if any.
   */
  lemma {:induction false} OpenReads(style: string, name: string, value: string, other: string)
    requires ValidName(name) && Allowed(value) && value != "" && ValidName(other) && other != name
    requires !Present(ParseAll(Split(style)), name)
    requires !Closed(Split(style)[|Split(style)| - 1])
    ensures var last, next := Split(style)[|Split(style)| - 1], NextText(style, name, value);
      && Read(next, name) != Some(value)
      && (!LeavesComment(last) || CommentEnd(value, 0).None? ==> Read(next, name) == None)
      && ((if LeavesComment(last) then CommentEnd(value, 0).None? else !Is(Parse(last), other)) ==> Read(next, other) == Read(style, other))
  {
    var init, last, whole := OpenParts(style, name, value);
    OpenReadsName(init, last, name, value);
    if if LeavesComment(last) then CommentEnd(value, 0).None? else !Is(Parse(last), other) {
      OpenReadsOther(init, last, name, value, other);
    }
  }

  lemma {:induction false} OthersKeptOpen(last: string, name: string, value: string, other: string)
    requires ValidName(name) && ValidName(other) && !LeavesComment(last)
    ensures Is(Parse(Swallowing(last, name, value)), other) <==> Is(Parse(last), other)
  {
    var trimmed := TrimRight(last);
    var raw, middle := Strip(trimmed, 0, Bare), Middle(trimmed, name);
    var more := middle + PastText(trimmed, middle, value);
    KeptWhole(last, name, value);
    SameBefore(last);
    if ':' in raw {
      ColonStays(raw, more);
    } else {
      SemicolonBefore(last);
      ColonBehind(raw, more);
      ColonOfName(trimmed, name, PastText(trimmed, middle, value));
      GarbledName(raw + (Between(trimmed) + name), other);
    }
  }

  lemma {:induction false} SpacesOutside(s: string, lead: string, mid: string, tail: string)
    requires s == lead + mid + tail && Blank(lead) && Blank(tail)
    ensures forall i :: 0 <= i < |s| && !IsSpace(s[i]) ==> |lead| <= i < |lead| + |mid|
  {
    assert forall i :: 0 <= i < |lead| ==> s[i] == lead[i];
    assert forall i :: |lead| + |mid| <= i < |s| ==> s[i] == tail[i - |lead| - |mid|];
  }

  /** Trimming keeps a text up to any character that is no white space. */
  lemma {:induction false} TrimHolds(t: string, p: nat)
    requires p < |t| && !IsSpace(t[0]) && !IsSpace(t[p])
    ensures |Trim(t)| > p
  {
    var lead, tail := TrimSplits(t);
    SpacesOutside(t, lead, Trim(t), tail);
  }

  lemma {:induction false} ImportantNoColon(s: string)
    requires IsImportant(s)
    ensures ':' !in s
  {
    var word := Trim(s[1..]);
    TrimShorter(s[1..]);
    assert forall i :: 0 <= i < 9 ==> "important"[i] != ':';
    assert forall i :: 0 <= i < |word| ==> LowerLetter(word[i]) != ':' && word[i] != ':';
    assert ':' !in s[1..] && s == [s[0]] + s[1..];
  }

  /** A declared value reaches past any colon in the text. */
  lemma {:induction false} ReachesColon(name: string, t: string, p: nat)
    requires p < |t| && !IsSpace(t[0]) && t[p] == ':'
    ensures |Declared(name, t).value| > p
  {
    var at := ImportantAt(t, 0);
    if at.Some? {
      ImportantNoColon(t[at.value..]);
      assert forall i :: at.value <= i < |t| ==> t[i] == t[at.value..][i - at.value];
      TrimHolds(t[..at.value], p);
    }
  }

  lemma {:induction false} DeclaredWithin(name: string, after: string)
    ensures |Declared(name, Trim(after)).value| <= |Trim(after)|
  {
    var value := Trim(after);
    var at := ImportantAt(value, 0);
    if at.Some? {
      TrimShorter(value[..at.value]);
    }
  }

  /** More text with a colon in it makes a longer value. */
  lemma {:induction false} ValueGrows(name: string, after: string, more: string, k: nat)
    requires k < |more| && more[k] == ':'
    ensures |Declared(name, Trim(after + more)).value| > |Declared(name, Trim(after)).value|
  {
    var s := after + more;
    var lead, tail := TrimSplits(s);
    var front, rest := TrimSplits(after);
    var t, p := Trim(s), |after| + k;
    SpacesOutside(s, lead, t, tail);
    assert s[p] == ':';
    assert Trim(after) != "" ==> s[|front|] == Trim(after)[0];
    assert t[p - |lead|] == s[p];
    DeclaredWithin(name, after);
    ReachesColon(name, t, p - |lead|);
  }

  /** Behind an open quote or bracket, what the last part declares takes in all that is appended. */
  lemma {:induction false} SwallowedGrows(last: string, name: string, value: string)
    requires ValidName(name) && !LeavesComment(last) && Parse(last).Some?
    ensures var whole := Parse(Swallowing(last, name, value));
      whole.Some? && whole.value.name == Parse(last).value.name && |whole.value.value| > |Parse(last).value.value|
  {
    var trimmed := TrimRight(last);
    var raw, middle := Strip(trimmed, 0, Bare), Middle(trimmed, name);
    var k := |Between(trimmed)| + |name|;
    KeptWhole(last, name, value);
    SameBefore(last);
    var tail := TailStrips(last);
    assert (middle + PastText(trimmed, middle, value))[k] == middle[k] == ':';
    RawGrows(raw, tail, middle + PastText(trimmed, middle, value), k);
  }

  lemma {:induction false} RawGrows(raw: string, tail: string, more: string, k: nat)
    requires ':' in raw && Blank(tail) && k < |more| && more[k] == ':'
    ensures var was, now := ParseRaw(raw + tail), ParseRaw(raw + more);
      was.Some? && now.Some? && now.value.name == was.value.name && |now.value.value| > |was.value.value|
  {
    ColonStays(raw, more);
    ColonStays(raw, tail);
    var at := IndexOfChar(raw, ':').value;
    TrimTail(raw[at + 1..], tail);
    ValueGrows(Trim(raw[..at]), raw[at + 1..], more, k);
  }

  // ----- all styles -----

  /**
   When a written value reads back: where the property is there already, unless the value makes itself
   important and the property was not; where it is not, only behind a style that closes what it opens.
   */
  ghost predicate Keeps(style: string, name: string, value: string) {
    var parts := Split(style);
    value == "" ||
    if Present(ParseAll(parts), name) then AnyImportant(ParseAll(parts), name) || !EndsImportant(value)
    else Closed(parts[|parts| - 1]) && !EndsImportant(value)
  }

  /** A value that is let through reads back exactly there; an empty one takes the property out. */
  lemma {:induction false} WriteReads(style: string, name: string, value: string)
    requires ValidName(name) && Allowed(value) && IsTrimmed(value)
    ensures Read(NextText(style, name, value), name) == (if value == "" then None else Some(value)) <==> Keeps(style, name, value)
  {
    var parts := Split(style);
    if value == "" || Present(ParseAll(parts), name) {
      RewriteReads(style, name, value, "");
    } else if Closed(parts[|parts| - 1]) {
      AppendReads(style, name, value, "");
    } else {
      OpenReads(style, name, value, name + "a");
    }
  }

  // ----- a value that ends the comment -----

  const ESCAPE := ['*', '/', ' ', '-', '-', 'x', ':', ' ', '5']

  lemma {:induction false} EscapeAllowed()
    ensures Allowed(ESCAPE) && IsTrimmed(ESCAPE) && CommentEnd(ESCAPE, 0) == Some(2)
  {
    assert Balanced(ESCAPE, 7, Neutral);
    assert Balanced(ESCAPE, 5, Neutral);
    assert Balanced(ESCAPE, 3, Neutral);
    assert Balanced(ESCAPE, 1, Neutral);
    assert forall i :: 0 <= i < |ESCAPE| ==> ESCAPE[i] !in ";{}<>\\";
  }

  lemma {:induction false} CommentIsOpen()
    ensures Split("/*") == ["/*"] && TrimRight("/*") == "/*" && LeavesComment("/*") && !Closed("/*") && Strip("/*", 0, Bare) == " "
  {
    var s := "/*";
    assert IsComment(s, 0) && CommentEnd(s, 2) == None;
    assert Step(s, 0, Neutral) == (State(Torn, []), 2);
    assert FirstCut(s, 2, State(Torn, [])) == None;
    assert !Reaches(s, 2, State(Torn, []), 2, Neutral);
    assert One(s, 0, Bare) == (" ", 2, Torn);
  }

  /** Behind an open comment the value can end it: the property then reads as what the value goes on with. */
  lemma {:induction false} CommentEscapes()
    ensures Allowed(ESCAPE) && Read(NextText("/*", "--x", ESCAPE), "--x") == Some("5")
  {
    EscapeAllowed();
    CommentIsOpen();
    assert ParseAll(["/*"]) == [Parse("/*")] && Parse("/*") == None;
    OpenAppends("/*", "--x", ESCAPE);
    SwallowingDeclares("/*", "--x", ESCAPE);
    EscapeDeclares();
    var whole := Swallowing("/*", "--x", ESCAPE);
    assert ["/*"][..0] + [whole] == [] + [whole];
    ReadSplit([], whole, "--x");
    assert Relevant(ParseAll([]), "--x") + [Parse(whole).value] == [Parse(whole).value];
    BestOfOne(Parse(whole).value);
  }

  lemma {:induction false} EscapingIs()
    ensures Escaping("/*", Middle("/*", "--x"), ESCAPE) == ESCAPE[2..]
  {
    EscapeAllowed();
    var front := "/*" + Middle("/*", "--x");
    var whole, p := front + ESCAPE, |front| + 2;
    assert forall k :: p <= k < |whole| ==> whole[k] == ESCAPE[k - |front|];
    assert whole[p..|whole|] == ESCAPE[2..];
    QuietStrips(whole, p, |whole|, Bare);
  }

  lemma {:induction false} PlainParses(before: string, after: string, name: string, value: string)
    requires ':' !in before && Trim(before) == name && Trim(after) == value && !EndsImportant(value)
    ensures ParseRaw(before + ":" + after) == Some(Declaration(name, value, false))
  {
    var raw := before + ":" + after;
    ColonFound(before, after);
    assert raw[..|before|] == before && raw[|before| + 1..] == after;
  }

  lemma {:induction false} FiveIsPlain()
    ensures Trim(" " + "5") == "5" && !EndsImportant("5")
  {
    ValueTrims("5");
    assert ImportantAt("5", 1) == None;
  }

  lemma {:induction false} NameIsPlain()
    ensures Trim("  " + "--x") == "--x" && ':' !in "  " + "--x"
  {
    NameTrims("  ", "--x");
  }

  lemma {:induction false} EscapeText()
    ensures " " + ESCAPE[2..] == ("  " + "--x") + ":" + (" " + "5")
  {
  }

  lemma {:induction false} EscapeDeclares()
    ensures ParseRaw(" " + Escaping("/*", Middle("/*", "--x"), ESCAPE)) == Some(Declaration("--x", "5", false))
  {
    EscapingIs();
    EscapeText();
    NameIsPlain();
    FiveIsPlain();
    PlainParses("  " + "--x", " " + "5", "--x", "5");
  }
}
