/**
 Splitting an inline style at its top-level semicolons (internal/dataapi/stylevars.go). Text is a
 sequence of characters; every delimiter is ASCII.
 */
module Scanner {
  import opened Sequences
  import opened Values

  /** `Torn` is the end of a text that stops inside a comment. */
  datatype Quote = Bare | In(mark: char) | Torn

  /** Where a scan is: inside a quote, and inside which brackets. */
  datatype State = State(quote: Quote, stack: seq<char>)

  const Neutral: State := State(Bare, [])

  predicate IsComment(text: string, i: nat) {
    i + 1 < |text| && text[i] == '/' && text[i + 1] == '*'
  }

  /** Just past the first end-of-comment mark at or after `from`. */
  function CommentEnd(text: string, from: nat): (r: Option<nat>)
    ensures r.Some? ==> from + 2 <= r.value <= |text| && text[r.value - 1] == '/'
    decreases |text| - from
  {
    if from + 1 >= |text| then None
    else if text[from] == '*' && text[from + 1] == '/' then Some(from + 2)
    else CommentEnd(text, from + 1)
  }

  /** What one unquoted character that starts no comment does. */
  function Take(st: State, c: char): State {
    if c == '"' || c == '\'' then State(In(c), st.stack)
    else if c == '(' then State(Bare, st.stack + [')'])
    else if c == '[' then State(Bare, st.stack + [']'])
    else if c == '{' then State(Bare, st.stack + ['}'])
    else if (c == ')' || c == ']' || c == '}') && |st.stack| > 0 && st.stack[|st.stack| - 1] == c
    then State(Bare, st.stack[..|st.stack| - 1])
    else st
  }

  /** One turn of the scan: the state after it and where it goes on. */
  function Step(text: string, i: nat, st: State): (r: (State, nat))
    requires i < |text|
    ensures i < r.1
  {
    var c := text[i];
    if st.quote.In? then
      if c == '\\' then (st, i + 2)
      else if c == st.quote.mark then (State(Bare, st.stack), i + 1)
      else (st, i + 1)
    else if st.quote.Torn? then (st, i + 1)
    else if IsComment(text, i) then
      var end := CommentEnd(text, i + 2);
      if end.None? then (State(Torn, st.stack), |text|) else (st, end.value)
    else (Take(st, c), i + 1)
  }

  predicate Cuts(text: string, i: nat, st: State)
    requires i < |text|
  {
    st == Neutral && text[i] == ';'
  }

  /** The first top-level semicolon from `i` on. */
  function FirstCut(text: string, i: nat, st: State): (r: Option<nat>)
    ensures r.Some? ==> i <= r.value < |text|
    decreases |text| - i
  {
    if i >= |text| then None
    else if Cuts(text, i, st) then Some(i)
    else FirstCut(text, Step(text, i, st).1, Step(text, i, st).0)
  }

  function Split(text: string): (parts: seq<string>)
    ensures |parts| > 0
  {
    var cut := FirstCut(text, 0, Neutral);
    if cut.None? then [text] else [text[..cut.value]] + Split(text[cut.value + 1..])
  }

  /** strings.Join(parts, ";") */
  function Join(parts: seq<string>): string {
    if parts == [] then ""
    else if |parts| == 1 then parts[0]
    else parts[0] + ";" + Join(parts[1..])
  }

  /** The scan goes from `a` to exactly `b` and meets no top-level semicolon on the way. */
  ghost predicate Reaches(text: string, a: nat, st: State, b: nat, after: State)
    requires b <= |text|
    decreases b - a
  {
    if a >= b then a == b && st == after
    else !Cuts(text, a, st) && Reaches(text, Step(text, a, st).1, Step(text, a, st).0, b, after)
  }

  /** A part that closes whatever it opens, and holds no top-level semicolon. */
  ghost predicate Closed(part: string) {
    Reaches(part, 0, Neutral, |part|, Neutral)
  }

  // ----- a stretch of text scans the same wherever it stands -----

  lemma {:induction false} CommentEndMoves(text: string, other: string, from: nat, gap: int)
    requires from + gap >= 0 && CommentEnd(text, from).Some?
    requires CommentEnd(text, from).value + gap <= |other|
    requires forall k :: from <= k < CommentEnd(text, from).value ==> other[k + gap] == text[k]
    ensures CommentEnd(other, from + gap) == Some(CommentEnd(text, from).value + gap)
    decreases |text| - from
  {
    if !(text[from] == '*' && text[from + 1] == '/') {
      assert other[from + gap] == text[from] && other[from + 1 + gap] == text[from + 1];
      CommentEndMoves(text, other, from + 1, gap);
    }
  }

  ghost predicate SameStretch(text: string, a: nat, b: nat, other: string, at: nat) {
    b <= |text| && a <= b && at + (b - a) <= |other| && forall k :: a <= k < b ==> other[at + (k - a)] == text[k]
  }

  lemma {:induction false} StepMoves(text: string, a: nat, st: State, b: nat, after: State, other: string, at: nat)
    requires a < b <= |text| && Reaches(text, a, st, b, after) && SameStretch(text, a, b, other, at)
    requires after.quote != Torn
    requires at + (b - a) < |other| ==> other[at + (b - a)] != '*'
    ensures var s := Step(text, a, st);
      && s.1 <= b && Reaches(text, s.1, s.0, b, after)
      && at < |other| && Cuts(other, at, st) == Cuts(text, a, st)
      && Step(other, at, st) == (s.0, at + (s.1 - a))
  {
    var s := Step(text, a, st);
    assert other[at] == text[a];
    if s.0.quote.Torn? {
      TornStays(text, s.1, s.0, b, after);
    }
    if st.quote.Bare? && IsComment(text, a) {
      assert other[at + 1] == text[a + 1];
      CommentEndMoves(text, other, a + 2, at - a);
    } else if a + 1 < b {
      assert other[at + 1] == text[a + 1];
    }
  }

  lemma {:induction false} TornStays(text: string, a: nat, st: State, b: nat, after: State)
    requires b <= |text| && Reaches(text, a, st, b, after) && st.quote == Torn
    ensures after.quote == Torn
    decreases b - a
  {
    if a < b {
      TornStays(text, Step(text, a, st).1, Step(text, a, st).0, b, after);
    }
  }

  lemma {:induction false} Transfer(text: string, a: nat, st: State, b: nat, after: State, other: string, at: nat)
    requires b <= |text| && Reaches(text, a, st, b, after) && SameStretch(text, a, b, other, at)
    requires after.quote != Torn
    requires at + (b - a) < |other| ==> other[at + (b - a)] != '*'
    ensures Reaches(other, at, st, at + (b - a), after)
    decreases b - a
  {
    if a < b {
      StepMoves(text, a, st, b, after, other, at);
      var s := Step(text, a, st);
      Transfer(text, s.1, s.0, b, after, other, at + (s.1 - a));
    }
  }

  /** What has been reached can be gone on from. */
  lemma {:induction false} CutAfter(text: string, a: nat, st: State, b: nat, after: State)
    requires b <= |text| && Reaches(text, a, st, b, after)
    ensures FirstCut(text, a, st) == FirstCut(text, b, after)
    decreases b - a
  {
    if a < b {
      CutAfter(text, Step(text, a, st).1, Step(text, a, st).0, b, after);
    }
  }

  lemma {:induction false} ReachesOn(text: string, a: nat, st: State, b: nat, mid: State, c: nat, after: State)
    requires b <= c <= |text| && Reaches(text, a, st, b, mid) && Reaches(text, b, mid, c, after)
    ensures Reaches(text, a, st, c, after)
    decreases b - a
  {
    if a < b {
      ReachesOn(text, Step(text, a, st).1, Step(text, a, st).0, b, mid, c, after);
    }
  }

  lemma {:induction false} CutIsReached(text: string, a: nat, st: State)
    requires FirstCut(text, a, st).Some?
    ensures Reaches(text, a, st, FirstCut(text, a, st).value, Neutral) && text[FirstCut(text, a, st).value] == ';'
    decreases |text| - a
  {
    if !Cuts(text, a, st) {
      CutIsReached(text, Step(text, a, st).1, Step(text, a, st).0);
    }
  }

  // ----- splitting and joining are inverse -----

  lemma {:induction false} JoinSplit(text: string)
    ensures Join(Split(text)) == text
    decreases |text|
  {
    var cut := FirstCut(text, 0, Neutral);
    if cut.Some? {
      CutIsReached(text, 0, Neutral);
      JoinSplit(text[cut.value + 1..]);
      assert text == text[..cut.value] + ";" + text[cut.value + 1..];
    }
  }

  /** A list of parts as a split makes it: closed but for the last, which holds no top-level semicolon. */
  ghost predicate AreParts(parts: seq<string>) {
    && |parts| > 0
    && (forall i :: 0 <= i < |parts| - 1 ==> Closed(parts[i]))
    && FirstCut(parts[|parts| - 1], 0, Neutral) == None
  }

  lemma {:induction false} SplitParts(text: string)
    ensures AreParts(Split(text))
    decreases |text|
  {
    var cut := FirstCut(text, 0, Neutral);
    if cut.Some? {
      CutIsReached(text, 0, Neutral);
      var part, rest := text[..cut.value], Split(text[cut.value + 1..]);
      Transfer(text, 0, Neutral, cut.value, Neutral, part, 0);
      SplitParts(text[cut.value + 1..]);
      assert Split(text) == [part] + rest;
    }
  }

  lemma {:induction false} ClosedPrefix(part: string, rest: string)
    requires Closed(part)
    ensures Split(part + ";" + rest) == [part] + Split(rest)
  {
    var text := part + ";" + rest;
    Transfer(part, 0, Neutral, |part|, Neutral, text, 0);
    CutAfter(text, 0, Neutral, |part|, Neutral);
    assert text[|part|] == ';';
    assert text[..|part|] == part && text[|part| + 1..] == rest;
  }

  lemma {:induction false} SplitJoin(parts: seq<string>)
    requires AreParts(parts)
    ensures Split(Join(parts)) == parts
    decreases |parts|
  {
    if |parts| > 1 {
      SplitJoin(parts[1..]);
      ClosedPrefix(parts[0], Join(parts[1..]));
      assert parts == [parts[0]] + parts[1..];
    }
  }

  // ----- the loop -----

  lemma {:induction false} CommentEndDrops(text: string, at: nat, from: nat)
    requires at <= |text|
    ensures var rest := CommentEnd(text[at..], from);
      CommentEnd(text, at + from) == if rest.None? then None else Some(at + rest.value)
    decreases |text| - from
  {
    if at + from + 1 < |text| {
      CommentEndDrops(text, at, from + 1);
    }
  }

  /** Scanning on from `at` is scanning what stands there. */
  lemma {:induction false} CutDrops(text: string, at: nat, i: nat, st: State)
    requires at <= |text|
    ensures var rest := FirstCut(text[at..], i, st);
      FirstCut(text, at + i, st) == if rest.None? then None else Some(at + rest.value)
    decreases |text| - i
  {
    var rest := text[at..];
    if i < |rest| && !Cuts(rest, i, st) {
      CommentEndDrops(text, at, i + 2);
      assert IsComment(rest, i) == IsComment(text, at + i);
      CutDrops(text, at, Step(rest, i, st).1, Step(rest, i, st).0);
    }
  }

  /** The parts still to come, the one under way having begun at `start`. */
  ghost function SplitFrom(text: string, start: nat, i: nat, st: State): seq<string>
    requires start <= i && start <= |text|
  {
    var cut := FirstCut(text, i, st);
    if cut.None? then [text[start..]] else [text[start..cut.value]] + Split(text[cut.value + 1..])
  }

  lemma {:induction false} NextPart(text: string, start: nat, i: nat)
    requires start <= i < |text| && text[i] == ';'
    ensures SplitFrom(text, start, i, Neutral) == [text[start..i]] + SplitFrom(text, i + 1, i + 1, Neutral)
  {
    CutDrops(text, i + 1, 0, Neutral);
    var rest := text[i + 1..];
    var cut := FirstCut(rest, 0, Neutral);
    if cut.Some? {
      assert rest[..cut.value] == text[i + 1..i + 1 + cut.value];
      assert rest[cut.value + 1..] == text[i + 1 + cut.value + 1..];
    }
  }

  lemma {:induction false} SameParts(text: string, start: nat, i: nat, st: State)
    requires start <= i < |text| && !Cuts(text, i, st)
    ensures SplitFrom(text, start, i, st) == SplitFrom(text, start, Step(text, i, st).1, Step(text, i, st).0)
  {
  }

  /** Splits at top-level semicolons, ignoring any inside quotes, brackets or comments. */
  method SplitDeclarations(text: string) returns (parts: seq<string>)
    ensures parts == Split(text)
  {
    parts := [];
    var quote, stack, start, i := Bare, [], 0, 0;
    assert text[0..] == text && SplitFrom(text, 0, 0, Neutral) == Split(text);
    while i < |text|
      invariant start <= i && start <= |text|
      invariant parts + SplitFrom(text, start, i, State(quote, stack)) == Split(text)
    {
      var st := State(quote, stack);
      if st == Neutral && text[i] == ';' {
        NextPart(text, start, i);
        Assoc(parts, [text[start..i]], SplitFrom(text, i + 1, i + 1, Neutral));
        parts := parts + [text[start..i]];
        start := i + 1;
        i := i + 1;
      } else {
        SameParts(text, start, i, st);
        var turn := Turn(text, i, st);
        quote, stack, i := turn.0.quote, turn.0.stack, turn.1;
      }
    }
    parts := parts + [text[start..]];
  }

  /** One character, escape or comment of the scan. */
  method Turn(text: string, i: nat, st: State) returns (r: (State, nat))
    requires i < |text|
    ensures r == Step(text, i, st)
  {
    var c := text[i];
    if st.quote.In? {
      if c == '\\' {
        return (st, i + 2);
      }
      return (if c == st.quote.mark then State(Bare, st.stack) else st, i + 1);
    }
    if st.quote.Bare? && IsComment(text, i) {
      var end := CommentEnd(text, i + 2);
      return if end.None? then (State(Torn, st.stack), |text|) else (st, end.value);
    }
    return (if st.quote.Torn? then st else Take(st, c), i + 1);
  }
}
