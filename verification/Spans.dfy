/**
 Recovering each element's byte range in the source (internal/dataapi/offsets.go).

 The tree is walked beside the token stream, pairing elements with start tags, and the stream is
 then replayed with a stack to find where each element ends.
 */
module Spans {
  import opened PageTree
  import opened Sequences
  import opened Values

  datatype Kind = StartTag | SelfClosing | EndTag | Other

  datatype Token = Token(kind: Kind, name: string, attrs: set<string>, start: nat, end: nat)

  datatype Span = Span(start: nat, end: nat)

  /** A raw token as the tokenizer hands it out: no position, only how many bytes it took. */
  datatype Raw = Raw(kind: Kind, name: string, attrs: set<string>, length: nat)

  /** Tokens follow each other without gap, none is empty, and they stay within the source. */
  ghost predicate Contiguous(tokens: seq<Token>, srcLen: nat) {
    && (forall i :: 0 <= i < |tokens| ==> tokens[i].start < tokens[i].end <= srcLen)
    && (forall i, j :: 0 <= i < j < |tokens| ==> tokens[i].end <= tokens[j].start)
  }

  function Opens(t: Token): bool {
    t.kind.StartTag? || t.kind.SelfClosing?
  }

  ghost function TotalLength(raws: seq<Raw>): nat {
    if raws == [] then 0 else TotalLength(raws[..|raws| - 1]) + raws[|raws| - 1].length
  }

  /** The tokens with the positions their lengths add up to. */
  ghost function Measured(raws: seq<Raw>): (tokens: seq<Token>)
    ensures |tokens| == |raws|
  {
    if raws == [] then []
    else
      var before, last := raws[..|raws| - 1], raws[|raws| - 1];
      Measured(before) + [Token(last.kind, last.name, last.attrs, TotalLength(before), TotalLength(raws))]
  }

  /** Every token starts where the previous one ended. */
  method TokenizeSource(raws: seq<Raw>) returns (tokens: seq<Token>)
    requires forall i :: 0 <= i < |raws| ==> raws[i].length > 0
    ensures tokens == Measured(raws) && Contiguous(tokens, TotalLength(raws))
  {
    tokens := [];
    var at := 0;
    for i := 0 to |raws|
      invariant at == TotalLength(raws[..i])
      invariant tokens == Measured(raws[..i]) && Contiguous(tokens, at)
    {
      assert raws[..i + 1][..i] == raws[..i];
      tokens := tokens + [Token(raws[i].kind, raws[i].name, raws[i].attrs, at, at + raws[i].length)];
      at := at + raws[i].length;
    }
    assert raws[..|raws|] == raws;
  }

  // ----- names -----

  function LowerChar(c: char): char {
    if 'A' <= c <= 'Z' then c - 'A' + 'a' else c
  }

  function Lower(s: string): string {
    seq(|s|, i requires 0 <= i < |s| => LowerChar(s[i]))
  }

  predicate EqualFold(a: string, b: string) {
    Lower(a) == Lower(b)
  }

  /** Built by the parser without a tag of their own. */
  const IMPLIED: set<string> := {"html", "head", "body", "tbody", "tr", "colgroup"}

  const VOID: set<string> := {
    "area", "base", "basefont", "bgsound", "br", "col", "embed", "frame", "hr", "img", "input",
    "keygen", "link", "meta", "param", "source", "track", "wbr"}

  /** The element carries exactly the attribute names its start tag wrote. */
  predicate SameAttrSet(n: Node, want: set<string>) {
    && |n.attrs| == |want|
    && forall i :: 0 <= i < |n.attrs| ==> exists k :: k in want && EqualFold(k, n.attrs[i])
  }

  // ----- what the spans promise -----

  /** `x` ends before `y` begins, or `y` lies inside `x` and is its descendant. */
  ghost predicate Nests(spans: map<Id, Span>, up: map<Id, Id>, depth: Depth, x: Id, y: Id)
    requires Ranked(up, depth) && x in spans && y in spans
  {
    || spans[x].end <= spans[y].start
    || (spans[y].end <= spans[x].end && Ancestor(up, depth, x, y))
  }

  ghost predicate Laminar(spans: map<Id, Span>, up: map<Id, Id>, depth: Depth, srcLen: nat)
    requires Ranked(up, depth)
  {
    && (forall x :: x in spans ==> spans[x].start < spans[x].end <= srcLen)
    && (forall x, y :: x in spans && y in spans && x != y ==> spans[x].start != spans[y].start)
    && (forall x, y :: x in spans && y in spans && spans[x].start < spans[y].start ==> Nests(spans, up, depth, x, y))
  }

  /** `spans` with everything in `xs` ending at `end`. */
  ghost function Closed(spans: map<Id, Span>, xs: seq<Id>, end: nat): map<Id, Span> {
    map x | x in spans :: if x in xs then Span(spans[x].start, end) else spans[x]
  }

  /** Where one element stands at `pos`: still open, or ended in time. */
  ghost predicate Placed(spans: map<Id, Span>, open: set<Id>, pos: nat, x: Id)
    requires x in spans
  {
    spans[x].start < pos && (x !in open ==> spans[x].start < spans[x].end <= pos)
  }

  /** How an element stands to one begun after it. */
  ghost predicate Related(spans: map<Id, Span>, open: set<Id>, up: map<Id, Id>, depth: Depth, x: Id, y: Id)
    requires Ranked(up, depth) && x in spans && y in spans
  {
    spans[x].start < spans[y].start ==>
      if x in open then Ancestor(up, depth, x, y)
      else spans[x].end <= spans[y].start || (y !in open && spans[y].end <= spans[x].end && Ancestor(up, depth, x, y))
  }

  /** The replay's invariant: `begun` holds the elements whose start tag has been read, up to `pos`. */
  ghost predicate Replayed(spans: map<Id, Span>, open: set<Id>, begun: set<Id>, pos: nat, up: map<Id, Id>, depth: Depth)
    requires Ranked(up, depth)
  {
    && open <= begun <= spans.Keys
    && (forall x :: x in begun ==> Placed(spans, open, pos, x))
    && (forall x, y :: x in begun && y in begun ==> Related(spans, open, up, depth, x, y))
  }

  /** Closing elements, none of them below one that stays open, at a point the replay has reached. */
  lemma {:induction false} CloseSet(spans: map<Id, Span>, open: set<Id>, begun: set<Id>, pos: nat, up: map<Id, Id>, depth: Depth, xs: seq<Id>, end: nat)
    requires Ranked(up, depth)
    requires Replayed(spans, open, begun, pos, up, depth)
    requires pos <= end
    requires forall x :: x in xs ==> x in open
    requires forall x, y :: x in xs && y in open && spans[x].start < spans[y].start ==> y in xs
    ensures Replayed(Closed(spans, xs, end), open - Elements(xs), begun, end, up, depth)
  {
    var after, rest := Closed(spans, xs, end), open - Elements(xs);
    forall x | x in begun ensures Placed(after, rest, end, x) {
      assert Placed(spans, open, pos, x);
    }
    forall x, y | x in begun && y in begun ensures Related(after, rest, up, depth, x, y) {
      assert Placed(spans, open, pos, x) && Placed(spans, open, pos, y);
      assert Related(spans, open, up, depth, x, y);
    }
  }

  /** Beginning an element below everything that is open. */
  lemma {:induction false} Begin(spans: map<Id, Span>, open: set<Id>, begun: set<Id>, pos: nat, up: map<Id, Id>, depth: Depth, e: Id, end: nat)
    requires Ranked(up, depth)
    requires Replayed(spans, open, begun, pos, up, depth)
    requires e in spans && e !in begun && pos <= spans[e].start < end
    requires forall x :: x in open ==> Ancestor(up, depth, x, e)
    ensures Replayed(spans, open + {e}, begun + {e}, end, up, depth)
  {
    var open', begun' := open + {e}, begun + {e};
    forall x | x in begun' ensures Placed(spans, open', end, x) {
      if x != e {
        assert Placed(spans, open, pos, x);
      }
    }
    forall x, y | x in begun' && y in begun' ensures Related(spans, open', up, depth, x, y) {
      if x != e {
        assert Placed(spans, open, pos, x);
      }
      if y != e {
        assert Placed(spans, open, pos, y);
      }
      if x != e && y != e {
        assert Related(spans, open, up, depth, x, y);
      }
    }
  }

  /** Once nothing is open the spans of everything begun are laminar. */
  lemma {:induction false} ReplayedIsLaminar(spans: map<Id, Span>, pos: nat, up: map<Id, Id>, depth: Depth)
    requires Ranked(up, depth)
    requires Replayed(spans, {}, spans.Keys, pos, up, depth)
    requires forall x, y :: x in spans && y in spans && x != y ==> spans[x].start != spans[y].start
    ensures Laminar(spans, up, depth, pos)
  {
    forall x | x in spans ensures spans[x].start < spans[x].end <= pos {
      assert Placed(spans, {}, pos, x);
    }
    forall x, y | x in spans && y in spans && spans[x].start < spans[y].start ensures Nests(spans, up, depth, x, y) {
      assert Related(spans, {}, up, depth, x, y);
    }
  }

  // ----- the stack over it -----

  ghost predicate Ordered(spans: map<Id, Span>, stack: seq<Id>) {
    && (forall a :: 0 <= a < |stack| ==> stack[a] in spans)
    && (forall a, b :: 0 <= a < b < |stack| ==> spans[stack[a]].start < spans[stack[b]].start)
  }

  ghost predicate Replaying(spans: map<Id, Span>, stack: seq<Id>, begun: set<Id>, pos: nat, up: map<Id, Id>, depth: Depth)
    requires Ranked(up, depth)
  {
    Ordered(spans, stack) && Replayed(spans, Elements(stack), begun, pos, up, depth)
  }

  /** Only ends change. */
  ghost predicate SameStarts(spans: map<Id, Span>, before: map<Id, Span>) {
    spans.Keys == before.Keys && forall x :: x in spans ==> spans[x].start == before[x].start
  }

  /** The two halves of an ordered stack are apart, and the upper one holds everything begun later. */
  lemma {:induction false} Halves(spans: map<Id, Span>, stack: seq<Id>, k: nat)
    requires Ordered(spans, stack) && k <= |stack|
    ensures Elements(stack) - Elements(stack[k..]) == Elements(stack[..k])
    ensures forall x, y :: x in stack[k..] && y in Elements(stack) && spans[x].start < spans[y].start ==> y in stack[k..]
  {
    var below, above := stack[..k], stack[k..];
    assert stack == below + above;
    forall x, y | x in above && y in below ensures spans[y].start < spans[x].start {
      var a :| 0 <= a < k && stack[a] == y;
      var b :| 0 <= b < |above| && above[b] == x;
      assert stack[k + b] == x;
    }
  }

  lemma {:induction false} CloseStack(spans: map<Id, Span>, stack: seq<Id>, begun: set<Id>, pos: nat, up: map<Id, Id>, depth: Depth, k: nat, end: nat)
    requires Ranked(up, depth) && k <= |stack| && pos <= end
    requires Replaying(spans, stack, begun, pos, up, depth)
    ensures Replaying(Closed(spans, stack[k..], end), stack[..k], begun, end, up, depth)
    ensures SameStarts(Closed(spans, stack[k..], end), spans)
  {
    Halves(spans, stack, k);
    CloseSet(spans, Elements(stack), begun, pos, up, depth, stack[k..], end);
  }

  /** What is above the innermost open element's descendant is above it too. */
  lemma {:induction false} StackAbove(spans: map<Id, Span>, stack: seq<Id>, begun: set<Id>, pos: nat, up: map<Id, Id>, depth: Depth, e: Id)
    requires Ranked(up, depth)
    requires Replaying(spans, stack, begun, pos, up, depth)
    requires stack == [] || Ancestor(up, depth, stack[|stack| - 1], e)
    ensures forall x :: x in stack ==> Ancestor(up, depth, x, e)
  {
    forall x | x in stack ensures Ancestor(up, depth, x, e) {
      var last := stack[|stack| - 1];
      if x != last {
        assert last in Elements(stack);
        assert Related(spans, Elements(stack), up, depth, x, last);
        AncestorTransitive(up, depth, x, last, e);
      }
    }
  }

  lemma {:induction false} PushStack(spans: map<Id, Span>, stack: seq<Id>, begun: set<Id>, pos: nat, up: map<Id, Id>, depth: Depth, e: Id, end: nat)
    requires Ranked(up, depth)
    requires Replaying(spans, stack, begun, pos, up, depth)
    requires e in spans && e !in begun && pos <= spans[e].start < end
    requires stack == [] || Ancestor(up, depth, stack[|stack| - 1], e)
    ensures Replaying(spans, stack + [e], begun + {e}, end, up, depth)
  {
    StackAbove(spans, stack, begun, pos, up, depth, e);
    forall x | x in stack ensures spans[x].start < pos {
      assert Placed(spans, Elements(stack), pos, x);
    }
    assert Elements(stack + [e]) == Elements(stack) + {e};
    Begin(spans, Elements(stack), begun, pos, up, depth, e, end);
  }

  // ----- why each element ends where it does -----

  /** What a replay works on. */
  datatype Page = Page(doc: Doc, tokens: seq<Token>, byToken: map<nat, Id>, up: map<Id, Id>, depth: Depth, void: set<string>)

  function Name(doc: Doc, x: Id): string {
    if x in doc.nodes then doc.nodes[x].name else ""
  }

  /** Token `j` is the end tag that closes `a` itself. */
  ghost predicate OwnEndTag(p: Page, spans: map<Id, Span>, closedBy: map<Id, nat>, a: Id, j: nat) {
    && j < |p.tokens| && p.tokens[j].kind.EndTag?
    && a in closedBy && closedBy[a] == j
    && a in spans && spans[a].end == p.tokens[j].end
    && EqualFold(Name(p.doc, a), p.tokens[j].name)
  }

  /**
   The five ways an element ends: its own end tag, the end tag of an element around it, a start tag
   outside it, itself being void or self-closing, or the end of the source.
   */
  ghost predicate Explained(p: Page, spans: map<Id, Span>, closedBy: map<Id, nat>, srcLen: nat, x: Id)
    requires Ranked(p.up, p.depth) && x in closedBy && x in spans
  {
    var j := closedBy[x];
    || OwnEndTag(p, spans, closedBy, x, j)
    || (&& j < |p.tokens| && p.tokens[j].kind.EndTag? && spans[x].end == p.tokens[j].start
        && exists a :: OwnEndTag(p, spans, closedBy, a, j) && Ancestor(p.up, p.depth, a, x))
    || (&& j < |p.tokens| && j in p.byToken && p.byToken[j] != x && spans[x].end == p.tokens[j].start
        && !Ancestor(p.up, p.depth, x, p.byToken[j]))
    || (&& j < |p.tokens| && j in p.byToken && p.byToken[j] == x && spans[x].end == p.tokens[j].end
        && (p.tokens[j].kind.SelfClosing? || p.tokens[j].name in p.void))
    || (j == |p.tokens| && spans[x].end == srcLen)
  }

  /** Token `j` gives no reason to close `x`: it opens something inside, or closes something inside of the same name. */
  ghost predicate Passed(p: Page, spans: map<Id, Span>, closedBy: map<Id, nat>, x: Id, j: nat)
    requires Ranked(p.up, p.depth) && j < |p.tokens|
  {
    && (j in p.byToken ==> Ancestor(p.up, p.depth, x, p.byToken[j]))
    && (p.tokens[j].kind.EndTag? && EqualFold(Name(p.doc, x), p.tokens[j].name) ==>
          exists y :: OwnEndTag(p, spans, closedBy, y, j) && Ancestor(p.up, p.depth, x, y))
  }

  ghost predicate Outlives(closedBy: map<Id, nat>, open: set<Id>, x: Id, j: nat) {
    x in open || (x in closedBy && j < closedBy[x])
  }

  /** Every end so far is explained, and every token an element outlived was passed. */
  ghost predicate Accounted(p: Page, spans: map<Id, Span>, closedBy: map<Id, nat>, open: set<Id>, begun: set<Id>, i: nat, srcLen: nat)
    requires Ranked(p.up, p.depth)
  {
    && i <= |p.tokens|
    && open <= begun <= spans.Keys && closedBy.Keys == begun - open
    && (forall x :: x in closedBy ==> closedBy[x] < i && Explained(p, spans, closedBy, srcLen, x))
    && (forall t, j :: t in p.byToken && t < j < i && Outlives(closedBy, open, p.byToken[t], j) ==>
          Passed(p, spans, closedBy, p.byToken[t], j))
    && (forall t :: t in p.byToken && p.byToken[t] in begun ==> t < i)
  }

  ghost function Marked(closedBy: map<Id, nat>, xs: seq<Id>, j: nat): map<Id, nat> {
    map x | x in closedBy.Keys + Elements(xs) :: if x in xs then j else closedBy[x]
  }

  /** What was settled stays settled. */
  ghost predicate Keeps(spans: map<Id, Span>, closedBy: map<Id, nat>, spans': map<Id, Span>, closedBy': map<Id, nat>) {
    forall x :: x in closedBy ==> x in closedBy' && closedBy'[x] == closedBy[x] && (x in spans ==> x in spans' && spans'[x] == spans[x])
  }

  lemma {:induction false} ExplainedKept(p: Page, spans: map<Id, Span>, closedBy: map<Id, nat>, spans': map<Id, Span>, closedBy': map<Id, nat>, srcLen: nat, x: Id)
    requires Ranked(p.up, p.depth) && x in closedBy && x in spans && Keeps(spans, closedBy, spans', closedBy')
    requires Explained(p, spans, closedBy, srcLen, x)
    ensures Explained(p, spans', closedBy', srcLen, x)
  {
    var j := closedBy[x];
    if a :| OwnEndTag(p, spans, closedBy, a, j) && Ancestor(p.up, p.depth, a, x) {
      assert OwnEndTag(p, spans', closedBy', a, j);
    }
  }

  lemma {:induction false} PassedKept(p: Page, spans: map<Id, Span>, closedBy: map<Id, nat>, spans': map<Id, Span>, closedBy': map<Id, nat>, x: Id, j: nat)
    requires Ranked(p.up, p.depth) && j < |p.tokens| && Keeps(spans, closedBy, spans', closedBy')
    requires Passed(p, spans, closedBy, x, j)
    ensures Passed(p, spans', closedBy', x, j)
  {
    if y :| OwnEndTag(p, spans, closedBy, y, j) && Ancestor(p.up, p.depth, x, y) {
      assert OwnEndTag(p, spans', closedBy', y, j);
    }
  }

  /** One token on: what it closed is explained, what stays open passed it. */
  lemma {:induction false} NextToken(p: Page, spans: map<Id, Span>, closedBy: map<Id, nat>, open: set<Id>, begun: set<Id>, i: nat, srcLen: nat,
                  spans': map<Id, Span>, closedBy': map<Id, nat>, open': set<Id>, begun': set<Id>)
    requires Ranked(p.up, p.depth) && i < |p.tokens|
    requires Accounted(p, spans, closedBy, open, begun, i, srcLen)
    requires Keeps(spans, closedBy, spans', closedBy')
    requires begun <= begun' <= spans'.Keys && open' <= begun' && closedBy'.Keys == begun' - open'
    requires forall x :: x in open' ==> x in open || x !in begun
    requires forall x :: x in closedBy' && x !in closedBy ==> closedBy'[x] == i && Explained(p, spans', closedBy', srcLen, x)
    requires forall t :: t in p.byToken && p.byToken[t] in begun' && p.byToken[t] !in begun ==> t == i
    requires forall x :: x in open' && x in begun ==> Passed(p, spans', closedBy', x, i)
    ensures Accounted(p, spans', closedBy', open', begun', i + 1, srcLen)
  {
    forall x | x in closedBy' ensures Explained(p, spans', closedBy', srcLen, x) {
      if x in closedBy {
        ExplainedKept(p, spans, closedBy, spans', closedBy', srcLen, x);
      }
    }
    forall t, j | t in p.byToken && t < j < i + 1 && Outlives(closedBy', open', p.byToken[t], j)
      ensures Passed(p, spans', closedBy', p.byToken[t], j)
    {
      var x := p.byToken[t];
      assert x in begun;
      if j < i {
        assert Outlives(closedBy, open, x, j);
        PassedKept(p, spans, closedBy, spans', closedBy', x, j);
      }
    }
  }

  /** The whole invariant of the replay, before token `i`. */
  ghost predicate Running(p: Page, spans: map<Id, Span>, closedBy: map<Id, nat>, stack: seq<Id>, begun: set<Id>, pos: nat, i: nat, srcLen: nat)
    requires Ranked(p.up, p.depth)
  {
    && Replaying(spans, stack, begun, pos, p.up, p.depth)
    && Accounted(p, spans, closedBy, Elements(stack), begun, i, srcLen)
  }

  lemma {:induction false} OpenAccounts(p: Page, spans: map<Id, Span>, closedBy: map<Id, nat>, open: set<Id>, begun: set<Id>, i: nat, srcLen: nat, xs: seq<Id>, e: Id)
    requires Ranked(p.up, p.depth)
    requires Accounted(p, spans, closedBy, open, begun, i, srcLen)
    requires i < |p.tokens| && Opens(p.tokens[i])
    requires i in p.byToken && p.byToken[i] == e && forall t :: t in p.byToken && p.byToken[t] == e ==> t == i
    requires e in spans && e !in begun && Elements(xs) <= open
    requires forall x :: x in xs ==> !Ancestor(p.up, p.depth, x, e)
    requires forall x :: x in open && x !in xs ==> Ancestor(p.up, p.depth, x, e)
    ensures Accounted(p, Closed(spans, xs, p.tokens[i].start), Marked(closedBy, xs, i), open - Elements(xs) + {e}, begun + {e}, i + 1, srcLen)
  {
    assert forall x :: x in xs ==> x in Elements(xs);
    NextToken(p, spans, closedBy, open, begun, i, srcLen, Closed(spans, xs, p.tokens[i].start), Marked(closedBy, xs, i), open - Elements(xs) + {e}, begun + {e});
  }

  lemma {:induction false} OpenReplays(spans: map<Id, Span>, open: seq<Id>, begun: set<Id>, pos: nat, up: map<Id, Id>, depth: Depth, k: nat, e: Id, start: nat, end: nat)
    requires Ranked(up, depth)
    requires Replaying(spans, open, begun, pos, up, depth)
    requires pos <= start < end && e in spans && e !in begun && spans[e].start == start
    requires k <= |open| && (k > 0 ==> Ancestor(up, depth, open[k - 1], e))
    ensures Replaying(Closed(spans, open[k..], start), open[..k] + [e], begun + {e}, end, up, depth)
    ensures forall x :: x in open[..k] ==> Ancestor(up, depth, x, e)
  {
    CloseStack(spans, open, begun, pos, up, depth, k, start);
    PushStack(Closed(spans, open[k..], start), open[..k], begun, start, up, depth, e, end);
    StackAbove(Closed(spans, open[k..], start), open[..k], begun, start, up, depth, e);
  }

  /** A start tag: everything from `k` up is closed by it, and its element is opened over the rest. */
  lemma {:induction false} OpenStep(p: Page, spans: map<Id, Span>, closedBy: map<Id, nat>, open: seq<Id>, begun: set<Id>, pos: nat, i: nat, srcLen: nat, k: nat, e: Id)
    requires Ranked(p.up, p.depth)
    requires Running(p, spans, closedBy, open, begun, pos, i, srcLen)
    requires i < |p.tokens| && Opens(p.tokens[i]) && pos <= p.tokens[i].start < p.tokens[i].end
    requires i in p.byToken && p.byToken[i] == e && forall t :: t in p.byToken && p.byToken[t] == e ==> t == i
    requires e in spans && e !in begun && spans[e].start == p.tokens[i].start
    requires k <= |open| && (k > 0 ==> Ancestor(p.up, p.depth, open[k - 1], e))
    requires forall x :: x in open[k..] ==> !Ancestor(p.up, p.depth, x, e)
    ensures Running(p, Closed(spans, open[k..], p.tokens[i].start), Marked(closedBy, open[k..], i), open[..k] + [e], begun + {e}, p.tokens[i].end, i + 1, srcLen)
  {
    OpenReplays(spans, open, begun, pos, p.up, p.depth, k, e, p.tokens[i].start, p.tokens[i].end);
    Halves(spans, open, k);
    assert Elements(open[..k] + [e]) == Elements(open) - Elements(open[k..]) + {e};
    OpenAccounts(p, spans, closedBy, Elements(open), begun, i, srcLen, open[k..], e);
  }

  lemma {:induction false} VoidAccounts(p: Page, spans: map<Id, Span>, closedBy: map<Id, nat>, open: set<Id>, begun: set<Id>, i: nat, srcLen: nat, e: Id)
    requires Ranked(p.up, p.depth)
    requires i < |p.tokens| && (p.tokens[i].kind.SelfClosing? || p.tokens[i].name in p.void)
    requires Accounted(p, spans, closedBy, open, begun, i + 1, srcLen)
    requires i in p.byToken && p.byToken[i] == e && e in open
    ensures Accounted(p, Closed(spans, [e], p.tokens[i].end), Marked(closedBy, [e], i), open - {e}, begun, i + 1, srcLen)
  {
    var after, marked := Closed(spans, [e], p.tokens[i].end), Marked(closedBy, [e], i);
    forall x | x in marked ensures marked[x] < i + 1 && Explained(p, after, marked, srcLen, x) {
      if x != e {
        ExplainedKept(p, spans, closedBy, after, marked, srcLen, x);
      }
    }
    forall t, j | t in p.byToken && t < j < i + 1 && Outlives(marked, open - {e}, p.byToken[t], j)
      ensures Passed(p, after, marked, p.byToken[t], j)
    {
      assert Outlives(closedBy, open, p.byToken[t], j);
      PassedKept(p, spans, closedBy, after, marked, p.byToken[t], j);
    }
  }

  /** A void or self-closing element ends with its own tag. */
  lemma {:induction false} VoidStep(p: Page, spans: map<Id, Span>, closedBy: map<Id, nat>, stack: seq<Id>, begun: set<Id>, i: nat, srcLen: nat, e: Id)
    requires Ranked(p.up, p.depth)
    requires i < |p.tokens| && (p.tokens[i].kind.SelfClosing? || p.tokens[i].name in p.void)
    requires Running(p, spans, closedBy, stack + [e], begun, p.tokens[i].end, i + 1, srcLen)
    requires i in p.byToken && p.byToken[i] == e
    ensures Running(p, Closed(spans, [e], p.tokens[i].end), Marked(closedBy, [e], i), stack, begun, p.tokens[i].end, i + 1, srcLen)
  {
    var open := stack + [e];
    assert open[|stack|..] == [e] && open[..|stack|] == stack;
    CloseStack(spans, open, begun, p.tokens[i].end, p.up, p.depth, |stack|, p.tokens[i].end);
    Halves(spans, open, |stack|);
    assert e in Elements(open) && Elements([e]) == {e};
    VoidAccounts(p, spans, closedBy, Elements(open), begun, i, srcLen, e);
  }

  lemma {:induction false} EndAccounts(p: Page, spans: map<Id, Span>, closedBy: map<Id, nat>, open: set<Id>, begun: set<Id>, i: nat, srcLen: nat, x: Id, inner: seq<Id>)
    requires Ranked(p.up, p.depth)
    requires Accounted(p, spans, closedBy, open, begun, i, srcLen)
    requires i < |p.tokens| && p.tokens[i].kind.EndTag? && i !in p.byToken
    requires x in open && x !in inner && EqualFold(Name(p.doc, x), p.tokens[i].name)
    requires forall y :: y in inner ==> y in open && Ancestor(p.up, p.depth, x, y)
    requires forall y :: y in open && y != x && y !in inner ==> Ancestor(p.up, p.depth, y, x)
    ensures Accounted(p, Closed(Closed(spans, inner, p.tokens[i].start), [x], p.tokens[i].end), Marked(closedBy, [x] + inner, i), open - Elements([x] + inner), begun, i + 1, srcLen)
  {
    var after := Closed(Closed(spans, inner, p.tokens[i].start), [x], p.tokens[i].end);
    var marked := Marked(closedBy, [x] + inner, i);
    assert OwnEndTag(p, after, marked, x, i);
    NextToken(p, spans, closedBy, open, begun, i, srcLen, after, marked, open - Elements([x] + inner), begun);
  }

  lemma {:induction false} EndReplays(spans: map<Id, Span>, open: seq<Id>, begun: set<Id>, pos: nat, up: map<Id, Id>, depth: Depth, at: nat, start: nat, end: nat)
    requires Ranked(up, depth)
    requires Replaying(spans, open, begun, pos, up, depth)
    requires pos <= start < end && at < |open|
    ensures Replaying(Closed(Closed(spans, open[at + 1..], start), [open[at]], end), open[..at], begun, end, up, depth)
  {
    CloseStack(spans, open, begun, pos, up, depth, at + 1, start);
    assert open[..at + 1][at..] == [open[at]] && open[..at + 1][..at] == open[..at];
    CloseStack(Closed(spans, open[at + 1..], start), open[..at + 1], begun, start, up, depth, at, end);
  }

  /** An end tag: the element at `at` ends after it, everything opened inside that one before it. */
  lemma {:induction false} EndStep(p: Page, spans: map<Id, Span>, closedBy: map<Id, nat>, open: seq<Id>, begun: set<Id>, pos: nat, i: nat, srcLen: nat, at: nat)
    requires Ranked(p.up, p.depth)
    requires Running(p, spans, closedBy, open, begun, pos, i, srcLen)
    requires i < |p.tokens| && p.tokens[i].kind.EndTag? && i !in p.byToken && pos <= p.tokens[i].start < p.tokens[i].end
    requires at < |open| && EqualFold(Name(p.doc, open[at]), p.tokens[i].name)
    ensures Running(p, Closed(Closed(spans, open[at + 1..], p.tokens[i].start), [open[at]], p.tokens[i].end), Marked(closedBy, open[at..], i), open[..at], begun, p.tokens[i].end, i + 1, srcLen)
  {
    EndReplays(spans, open, begun, pos, p.up, p.depth, at, p.tokens[i].start, p.tokens[i].end);
    Halves(spans, open, at);
    SplitAt(spans, open, at);
    forall y | y in open[at + 1..] ensures Ancestor(p.up, p.depth, open[at], y) {
      InnerIsBelow(spans, open, begun, pos, p.up, p.depth, at, y);
    }
    forall y | y in open[..at] ensures Ancestor(p.up, p.depth, y, open[at]) {
      OuterIsAbove(spans, open, begun, pos, p.up, p.depth, at, y);
    }
    EndAccounts(p, spans, closedBy, Elements(open), begun, i, srcLen, open[at], open[at + 1..]);
  }

  lemma {:induction false} SplitAt(spans: map<Id, Span>, open: seq<Id>, at: nat)
    requires Ordered(spans, open) && at < |open|
    ensures open[at..] == [open[at]] + open[at + 1..]
    ensures open[at] in open && open[at] !in open[at + 1..]
    ensures forall y :: y in open[at + 1..] ==> y in open
    ensures forall y :: y in open ==> y in open[..at] || y == open[at] || y in open[at + 1..]
  {
    assert open == open[..at] + [open[at]] + open[at + 1..];
    var inner := open[at + 1..];
    forall y | y in inner ensures y != open[at] {
      var b :| at < b < |open| && open[b] == y;
    }
  }

  lemma {:induction false} InnerIsBelow(spans: map<Id, Span>, open: seq<Id>, begun: set<Id>, pos: nat, up: map<Id, Id>, depth: Depth, at: nat, y: Id)
    requires Ranked(up, depth) && Replaying(spans, open, begun, pos, up, depth)
    requires at < |open| && y in open[at + 1..]
    ensures Ancestor(up, depth, open[at], y)
  {
    var b :| at < b < |open| && open[b] == y;
    assert open[at] in Elements(open) && y in Elements(open);
    assert Related(spans, Elements(open), up, depth, open[at], y);
  }

  lemma {:induction false} OuterIsAbove(spans: map<Id, Span>, open: seq<Id>, begun: set<Id>, pos: nat, up: map<Id, Id>, depth: Depth, at: nat, y: Id)
    requires Ranked(up, depth) && Replaying(spans, open, begun, pos, up, depth)
    requires at < |open| && y in open[..at]
    ensures Ancestor(up, depth, y, open[at])
  {
    var b :| 0 <= b < at && open[b] == y;
    assert open[at] in Elements(open) && y in Elements(open);
    assert Related(spans, Elements(open), up, depth, y, open[at]);
  }

  /** A token that closes nothing. */
  lemma {:induction false} IdleStep(p: Page, spans: map<Id, Span>, closedBy: map<Id, nat>, open: seq<Id>, begun: set<Id>, pos: nat, i: nat, srcLen: nat)
    requires Ranked(p.up, p.depth)
    requires Running(p, spans, closedBy, open, begun, pos, i, srcLen)
    requires i < |p.tokens| && i !in p.byToken && pos <= p.tokens[i].end
    requires p.tokens[i].kind.EndTag? ==> forall x :: x in open ==> !EqualFold(Name(p.doc, x), p.tokens[i].name)
    ensures Running(p, spans, closedBy, open, begun, p.tokens[i].end, i + 1, srcLen)
  {
    CloseStack(spans, open, begun, pos, p.up, p.depth, |open|, p.tokens[i].end);
    assert open[|open|..] == [] && open[..|open|] == open;
    assert Closed(spans, [], p.tokens[i].end) == spans;
    NextToken(p, spans, closedBy, Elements(open), begun, i, srcLen, spans, closedBy, Elements(open), begun);
  }

  // ----- the run of the replay -----

  lemma {:induction false} StartRunning(p: Page, spans: map<Id, Span>, srcLen: nat)
    requires Ranked(p.up, p.depth)
    ensures Running(p, spans, map[], [], {}, 0, 0, srcLen)
  {
  }

  /** Where the token before `i` ends. */
  ghost function Reached(tokens: seq<Token>, i: nat): nat
    requires i <= |tokens|
  {
    if i == 0 then 0 else tokens[i - 1].end
  }

  lemma {:induction false} ReachedBefore(tokens: seq<Token>, srcLen: nat, i: nat)
    requires Contiguous(tokens, srcLen) && i < |tokens|
    ensures Reached(tokens, i) <= tokens[i].start < tokens[i].end == Reached(tokens, i + 1)
  {
  }

  ghost predicate OneToOne(tokens: seq<Token>, byToken: map<nat, Id>, spans: map<Id, Span>) {
    && (forall t :: t in byToken ==>
          t < |tokens| && Opens(tokens[t]) && byToken[t] in spans && spans[byToken[t]].start == tokens[t].start)
    && (forall t, u :: t in byToken && u in byToken && byToken[t] == byToken[u] ==> t == u)
    && (forall x :: x in spans ==> exists t :: t in byToken && byToken[t] == x)
  }

  /** The elements whose start tag comes before token `i`. */
  ghost function BegunBefore(byToken: map<nat, Id>, i: nat): set<Id> {
    set t | t in byToken && t < i :: byToken[t]
  }

  lemma {:induction false} BegunNext(tokens: seq<Token>, byToken: map<nat, Id>, spans: map<Id, Span>, i: nat)
    requires OneToOne(tokens, byToken, spans)
    ensures i in byToken ==>
      BegunBefore(byToken, i + 1) == BegunBefore(byToken, i) + {byToken[i]} && byToken[i] !in BegunBefore(byToken, i)
    ensures i !in byToken ==> BegunBefore(byToken, i + 1) == BegunBefore(byToken, i)
  {
  }

  lemma {:induction false} AllBegun(tokens: seq<Token>, byToken: map<nat, Id>, spans: map<Id, Span>)
    requires OneToOne(tokens, byToken, spans)
    ensures BegunBefore(byToken, |tokens|) == spans.Keys
  {
    forall x | x in spans ensures x in BegunBefore(byToken, |tokens|) {
      var t :| t in byToken && byToken[t] == x;
    }
  }

  lemma {:induction false} DistinctStarts(tokens: seq<Token>, byToken: map<nat, Id>, spans: map<Id, Span>, srcLen: nat)
    requires OneToOne(tokens, byToken, spans) && Contiguous(tokens, srcLen)
    ensures forall x, y :: x in spans && y in spans && x != y ==> spans[x].start != spans[y].start
  {
    forall x, y | x in spans && y in spans && x != y ensures spans[x].start != spans[y].start {
      var t :| t in byToken && byToken[t] == x;
      var u :| u in byToken && byToken[u] == y;
      assert t < u || u < t;
    }
  }

  /** At the end of the source everything still open ends. */
  lemma {:induction false} FinalLaminar(spans: map<Id, Span>, open: seq<Id>, pos: nat, up: map<Id, Id>, depth: Depth, srcLen: nat)
    requires Ranked(up, depth)
    requires Replaying(spans, open, spans.Keys, pos, up, depth) && pos <= srcLen
    requires forall x, y :: x in spans && y in spans && x != y ==> spans[x].start != spans[y].start
    ensures Laminar(Closed(spans, open, srcLen), up, depth, srcLen)
  {
    CloseStack(spans, open, spans.Keys, pos, up, depth, 0, srcLen);
    assert open[0..] == open && Elements(open[..0]) == {};
    ReplayedIsLaminar(Closed(spans, open, srcLen), srcLen, up, depth);
  }

  /** Every element's end is explained, and it passed every token it outlived. */
  ghost predicate AllAccounted(p: Page, spans: map<Id, Span>, closedBy: map<Id, nat>, srcLen: nat)
    requires Ranked(p.up, p.depth)
  {
    && closedBy.Keys == spans.Keys
    && (forall x :: x in closedBy ==> Explained(p, spans, closedBy, srcLen, x))
    && (forall t, j :: t in p.byToken && t < j < |p.tokens| && Outlives(closedBy, {}, p.byToken[t], j) ==>
          Passed(p, spans, closedBy, p.byToken[t], j))
  }

  lemma {:induction false} FinalAccounts(p: Page, spans: map<Id, Span>, closedBy: map<Id, nat>, open: set<Id>, stack: seq<Id>, srcLen: nat)
    requires Ranked(p.up, p.depth)
    requires Accounted(p, spans, closedBy, open, spans.Keys, |p.tokens|, srcLen) && open == Elements(stack)
    ensures AllAccounted(p, Closed(spans, stack, srcLen), Marked(closedBy, stack, |p.tokens|), srcLen)
  {
    var after, marked := Closed(spans, stack, srcLen), Marked(closedBy, stack, |p.tokens|);
    forall x | x in marked ensures Explained(p, after, marked, srcLen, x) {
      if x !in stack {
        ExplainedKept(p, spans, closedBy, after, marked, srcLen, x);
      }
    }
    forall t, j | t in p.byToken && t < j < |p.tokens| && Outlives(marked, {}, p.byToken[t], j)
      ensures Passed(p, after, marked, p.byToken[t], j)
    {
      assert Outlives(closedBy, open, p.byToken[t], j);
      PassedKept(p, spans, closedBy, after, marked, p.byToken[t], j);
    }
  }
}
