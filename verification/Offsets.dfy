/**
 Recovering each element's byte range in the source (internal/dataapi/offsets.go).

 The tree is walked beside the token stream, pairing elements with start tags, and the stream is
 then replayed with a stack to find where each element ends.
 */
module Offsets {
  import opened PageTree
  import opened Sequences
  import opened Spans
  import opened Values

  // ----- what a walk leaves behind -----

  /** What the walk works on; `starts` indexes the start-tag and self-closing tokens. */
  datatype Stream = Stream(doc: Doc, tokens: seq<Token>, starts: seq<nat>, implied: set<string>)

  /** An element a start tag can have made. */
  predicate Fits(n: Node, t: Token) {
    n.element && EqualFold(t.name, n.name) && SameAttrSet(n, t.attrs)
  }

  ghost predicate Takes(s: Stream, taken: nat, n: Id) {
    && taken < |s.starts| && s.starts[taken] < |s.tokens|
    && n in s.doc.nodes && Fits(s.doc.nodes[n], s.tokens[s.starts[taken]])
  }

  /** The elements that take a start tag when the nodes of `v` are met in that order. */
  ghost function Takers(s: Stream, v: seq<Id>): seq<Id> {
    if v == [] then []
    else
      var before := Takers(s, v[..|v| - 1]);
      if Takes(s, |before|, v[|v| - 1]) then before + [v[|v| - 1]] else before
  }

  /** Every element met took a start tag or is one the parser implies. */
  ghost predicate Accepts(s: Stream, v: seq<Id>) {
    v != [] ==>
      var n := v[|v| - 1];
      && Accepts(s, v[..|v| - 1])
      && (n in s.doc.nodes && s.doc.nodes[n].element && !Takes(s, |Takers(s, v[..|v| - 1])|, n) ==> s.doc.nodes[n].name in s.implied)
  }

  /** The tree and the tokens describe the same document. */
  ghost predicate AllPair(s: Stream, v: seq<Id>) {
    Accepts(s, v) && |Takers(s, v)| == |s.starts|
  }

  ghost function TagsOf(s: Stream, order: seq<Id>): map<nat, Id> {
    if order == [] || |order| > |s.starts| then map[]
    else TagsOf(s, order[..|order| - 1])[s.starts[|order| - 1] := order[|order| - 1]]
  }

  ghost function SpansOf(s: Stream, order: seq<Id>): map<Id, Span> {
    if order == [] || |order| > |s.starts| || s.starts[|order| - 1] >= |s.tokens| then map[]
    else SpansOf(s, order[..|order| - 1])[order[|order| - 1] := Span(s.tokens[s.starts[|order| - 1]].start, 0)]
  }

  /** The walk's own fields. */
  datatype State = State(next: nat, byToken: map<nat, Id>, spans: map<Id, Span>, ok: bool)

  /** What meeting one more node does to them. */
  ghost function Step(s: Stream, st: State, n: Id): State {
    if !st.ok || n !in s.doc.nodes || !s.doc.nodes[n].element then st
    else if Takes(s, st.next, n) then
      State(st.next + 1, st.byToken[s.starts[st.next] := n], st.spans[n := Span(s.tokens[s.starts[st.next]].start, 0)], true)
    else if s.doc.nodes[n].name in s.implied then st
    else st.(ok := false)
  }

  /** The fields once the first `k` nodes of `v` have been met. */
  ghost function Meet(s: Stream, v: seq<Id>, k: nat): State
    requires k <= |v|
  {
    if k == 0 then State(0, map[], map[], true) else Step(s, Meet(s, v, k - 1), v[k - 1])
  }

  /** Where the first `k` nodes hang, those whose parent keeps its children as template content. */
  ghost function OwnersOf(doc: Doc, t: Layout, k: nat): map<Id, Id>
    requires k <= |t.order|
  {
    map x | x in t.order[..k] && x in t.up && t.up[x] in doc.content :: t.up[x]
  }

  /** Every owner is the template that holds the node. */
  ghost predicate OwnsRightly(doc: Doc, t: Layout, owner: map<Id, Id>) {
    forall x {:trigger owner[x]} :: x in owner ==> x in t.order && x in t.up && t.up[x] in doc.content && owner[x] == t.up[x]
  }

  // ----- what that means -----

  /** The tokens that open an element, in order. */
  ghost predicate AreStartTags(tokens: seq<Token>, upto: nat, starts: seq<nat>)
    requires upto <= |tokens|
  {
    && (forall k :: 0 <= k < |starts| ==> starts[k] < upto && Opens(tokens[starts[k]]))
    && (forall a, b :: 0 <= a < b < |starts| ==> starts[a] < starts[b])
    && (forall t: nat :: t < upto && Opens(tokens[t]) ==> t in starts)
  }

  /** `order` are nodes of `v`, in their order there, each taking the next start tag. */
  ghost predicate TakenInOrder(s: Stream, v: seq<Id>, order: seq<Id>) {
    match s
    case Stream(_, _, starts, _) =>
      && |order| <= |starts|
      && order == Kept(v, Elements(order))
      && (forall x :: x in order ==> x in v)
      && NoRepeats(order)
      && (forall k :: 0 <= k < |order| ==> Takes(s, k, order[k]))
  }

  lemma {:induction false} TakersFit(s: Stream, v: seq<Id>)
    requires NoRepeats(v)
    ensures TakenInOrder(s, v, Takers(s, v))
  {
    if v != [] {
      var init, last := v[..|v| - 1], v[|v| - 1];
      assert v == init + [last];
      LastIsNew(init, last);
      TakersFit(s, init);
      KeptAgree(init, Elements(Takers(s, init)), Elements(Takers(s, v)));
      KeptMore(init, last, Elements(Takers(s, v)));
    }
  }

  lemma {:induction false} AcceptedAreImplied(s: Stream, v: seq<Id>)
    requires Accepts(s, v)
    ensures forall x :: x in v && x !in Takers(s, v) && x in s.doc.nodes && s.doc.nodes[x].element ==> s.doc.nodes[x].name in s.implied
  {
    if v != [] {
      AcceptedAreImplied(s, v[..|v| - 1]);
      assert v == v[..|v| - 1] + [v[|v| - 1]];
    }
  }

  /** A walk fails when it meets a node nothing accounts for. */
  lemma {:induction false} MeetAccepts(s: Stream, v: seq<Id>, k: nat)
    requires k <= |v|
    ensures var st := Meet(s, v, k); st.ok == Accepts(s, v[..k]) && (st.ok ==> st.next == |Takers(s, v[..k])|)
  {
    if k > 0 {
      MeetAccepts(s, v, k - 1);
      assert v[..k][..k - 1] == v[..k - 1];
    }
  }

  lemma {:induction false} OnePaired(s: Stream, order: seq<Id>, x: Id)
    requires |order| < |s.starts| && s.starts[|order|] < |s.tokens|
    ensures TagsOf(s, order + [x]) == TagsOf(s, order)[s.starts[|order|] := x]
    ensures SpansOf(s, order + [x]) == SpansOf(s, order)[x := Span(s.tokens[s.starts[|order|]].start, 0)]
  {
    assert (order + [x])[..|order|] == order;
  }

  /** A walk pairs the takers with the start tags in order. */
  lemma {:induction false} MeetPairs(s: Stream, v: seq<Id>, k: nat)
    requires AreStartTags(s.tokens, |s.tokens|, s.starts) && k <= |v| && Meet(s, v, k).ok
    ensures var st, order := Meet(s, v, k), Takers(s, v[..k]);
      |order| <= |s.starts| && st.byToken == TagsOf(s, order) && st.spans == SpansOf(s, order)
  {
    if k > 0 {
      MeetPairs(s, v, k - 1);
      MeetAccepts(s, v, k - 1);
      assert v[..k][..k - 1] == v[..k - 1];
      if Takes(s, |Takers(s, v[..k - 1])|, v[k - 1]) {
        OnePaired(s, Takers(s, v[..k - 1]), v[k - 1]);
      }
    }
  }

  lemma {:induction false} TagsKnown(s: Stream, order: seq<Id>)
    requires |order| <= |s.starts| && AreStartTags(s.tokens, |s.tokens|, s.starts)
    ensures forall t :: t in TagsOf(s, order) <==> exists k :: 0 <= k < |order| && s.starts[k] == t
    ensures forall k :: 0 <= k < |order| ==> TagsOf(s, order)[s.starts[k]] == order[k]
  {
    if order != [] {
      TagsKnown(s, order[..|order| - 1]);
    }
  }

  lemma {:induction false} SpansKnown(s: Stream, order: seq<Id>)
    requires |order| <= |s.starts| && AreStartTags(s.tokens, |s.tokens|, s.starts)
    ensures forall x :: x in SpansOf(s, order) <==> x in order
  {
    if order != [] {
      SpansKnown(s, order[..|order| - 1]);
      assert order == order[..|order| - 1] + [order[|order| - 1]];
    }
  }

  /** What the walk leaves behind pairs off one to one. */
  lemma {:induction false} WalkIsOneToOne(s: Stream, order: seq<Id>)
    requires |order| <= |s.starts| && NoRepeats(order) && AreStartTags(s.tokens, |s.tokens|, s.starts)
    ensures OneToOne(s.tokens, TagsOf(s, order), SpansOf(s, order))
  {
    if order != [] {
      var last := |order| - 1;
      var before := order[..last];
      WalkIsOneToOne(s, before);
      TagsKnown(s, before);
      SpansKnown(s, before);
      OneMore(s.tokens, TagsOf(s, before), SpansOf(s, before), s.starts[last], order[last]);
    }
  }

  lemma {:induction false} OneMore(tokens: seq<Token>, byToken: map<nat, Id>, spans: map<Id, Span>, t: nat, x: Id)
    requires OneToOne(tokens, byToken, spans)
    requires t !in byToken && x !in spans && t < |tokens| && Opens(tokens[t])
    ensures OneToOne(tokens, byToken[t := x], spans[x := Span(tokens[t].start, 0)])
  {
    var tags, after := byToken[t := x], spans[x := Span(tokens[t].start, 0)];
    forall y | y in after ensures exists u :: u in tags && tags[u] == y {
      if y == x {
        assert tags[t] == y;
      } else {
        var u :| u in byToken && byToken[u] == y;
        assert tags[u] == y;
      }
    }
  }

  /**
   The start tags went, in order, to elements in document order, each fitting its tag; every
   element left out is one the parser implies.
   */
  ghost predicate Paired(s: Stream, byToken: map<nat, Id>, order: seq<Id>, inDocument: seq<Id>) {
    && |order| == |s.starts|
    && order == Kept(inDocument, Elements(order))
    && (forall k :: 0 <= k < |order| ==> Takes(s, k, order[k]) && s.starts[k] in byToken && byToken[s.starts[k]] == order[k])
    && (forall x :: x in inDocument && x !in order && x in s.doc.nodes && s.doc.nodes[x].element ==> s.doc.nodes[x].name in s.implied)
  }

  lemma {:induction false} MeetRefused(s: Stream, v: seq<Id>, j: nat, k: nat)
    requires j <= k <= |v| && !Meet(s, v, j).ok
    ensures Meet(s, v, k) == Meet(s, v, j)
    decreases k
  {
    if j < k {
      MeetRefused(s, v, j, k - 1);
    }
  }

  lemma {:induction false} OwnerOfNext(doc: Doc, t: Layout, n: Id, c: Id)
    requires Tree(doc, t) && c in t.order && IsChild(doc, t.up, n, c)
    ensures var before := OwnersOf(doc, t, t.pos(c));
      OwnersOf(doc, t, t.pos(c) + 1) == if n in doc.content then before[c := n] else before
  {
    var k := t.pos(c);
    assert Laid(doc, t, c);
    assert t.order[..k + 1] == t.order[..k] + [c];
  }

  method StartTags(tokens: seq<Token>) returns (starts: seq<nat>)
    ensures AreStartTags(tokens, |tokens|, starts)
  {
    starts := [];
    for i := 0 to |tokens|
      invariant AreStartTags(tokens, i, starts)
    {
      if Opens(tokens[i]) {
        starts := starts + [i];
      }
    }
  }

  class Pairing {
    const doc: Doc
    const tokens: seq<Token>
    /** The start-tag and self-closing tokens, which is the stream the walk consumes. */
    const starts: seq<nat>
    const implied: set<string>
    const void: set<string>
    var next: nat
    var byToken: map<nat, Id>
    var spans: map<Id, Span>
    /** The parent link a template's content does not carry itself. */
    var owner: map<Id, Id>
    var ok: bool

    ghost const layout: Layout
    /** The token that ended each element, the number of tokens for the end of the source. */
    ghost var closedBy: map<Id, nat>

    ghost function Source(): Stream {
      Stream(doc, tokens, starts, implied)
    }

    constructor (doc: Doc, tokens: seq<Token>, ghost layout: Layout)
      ensures Now() == State(0, map[], map[], true) && owner == map[] && closedBy == map[]
      ensures AreStartTags(tokens, |tokens|, starts) && implied == IMPLIED && void == VOID
      ensures this.doc == doc && this.tokens == tokens && this.layout == layout
    {
      var openers := StartTags(tokens);
      this.doc, this.tokens, starts, implied, void := doc, tokens, openers, IMPLIED, VOID;
      this.layout := layout;
      next, byToken, spans, owner, ok := 0, map[], map[], map[], true;
      closedBy := map[];
    }

    ghost function Now(): State
      reads this`next, this`byToken, this`spans, this`ok
    {
      State(next, byToken, spans, ok)
    }

    /**
     Consumes the next start tag for `n`; an implied element without one stays without a span, and
     any other mismatch ends the pairing.
     */
    method Match(n: Id) returns (goOn: bool)
      requires AreStartTags(tokens, |tokens|, starts)
      requires ok && n in doc.nodes && doc.nodes[n].element
      modifies this`spans, this`byToken, this`next, this`ok
      ensures goOn == ok && Now() == Step(Source(), old(Now()), n)
    {
      if next >= |starts| {
        if doc.nodes[n].name in implied {
          return true;
        }
        ok := false;
        return false;
      }
      var t := tokens[starts[next]];
      if !EqualFold(t.name, doc.nodes[n].name) || !SameAttrSet(doc.nodes[n], t.attrs) {
        if doc.nodes[n].name in implied {
          return true;
        }
        ok := false;
        return false;
      }
      spans := spans[n := Span(t.start, 0)];
      byToken := byToken[starts[next] := n];
      next := next + 1;
      return true;
    }

    /** Visits the elements below `n` in document order, taking each one's start tag off the front of the stream. */
    method Walk(n: Id)
      requires AreStartTags(tokens, |tokens|, starts)
      requires Tree(doc, layout) && n in layout.order
      requires Now() == Meet(Source(), layout.order, layout.pos(n))
      requires ok ==> owner == OwnersOf(doc, layout, layout.pos(n) + 1)
      requires OwnsRightly(doc, layout, owner)
      modifies this`next, this`byToken, this`spans, this`owner, this`ok
      ensures OwnsRightly(doc, layout, owner)
      ensures layout.end(n) <= |layout.order| && Now() == Meet(Source(), layout.order, layout.end(n))
      ensures ok ==> owner == OwnersOf(doc, layout, layout.end(n))
      decreases layout.end(n) - layout.pos(n), 1
    {
      assert Laid(doc, layout, n);
      if !ok {
        MeetRefused(Source(), layout.order, layout.pos(n), layout.end(n));
        return;
      }
      if doc.nodes[n].element {
        var goOn := Match(n);
        if !goOn {
          MeetRefused(Source(), layout.order, layout.pos(n) + 1, layout.end(n));
          return;
        }
      }
      WalkChildren(n);
    }

    method WalkChildren(n: Id)
      requires AreStartTags(tokens, |tokens|, starts)
      requires Tree(doc, layout) && n in layout.order
      requires Now() == Meet(Source(), layout.order, layout.pos(n) + 1)
      requires ok ==> owner == OwnersOf(doc, layout, layout.pos(n) + 1)
      requires OwnsRightly(doc, layout, owner)
      modifies this`next, this`byToken, this`spans, this`owner, this`ok
      ensures OwnsRightly(doc, layout, owner)
      ensures layout.end(n) <= |layout.order| && Now() == Meet(Source(), layout.order, layout.end(n))
      ensures ok ==> owner == OwnersOf(doc, layout, layout.end(n))
      decreases layout.end(n) - layout.pos(n), 0
    {
      assert Laid(doc, layout, n);
      for i := 0 to |Children(doc, n)|
        invariant Stop(doc, layout, n, i) <= |layout.order|
        invariant Now() == Meet(Source(), layout.order, Stop(doc, layout, n, i))
        invariant ok ==> owner == OwnersOf(doc, layout, Stop(doc, layout, n, i))
        invariant OwnsRightly(doc, layout, owner)
      {
        assert Stands(doc, layout, n, i);
        Enter(n, Children(doc, n)[i]);
      }
    }

    /** A template's content is visited at its template's position, and told where it hangs. */
    method Enter(n: Id, c: Id)
      requires AreStartTags(tokens, |tokens|, starts)
      requires Tree(doc, layout) && c in layout.order && IsChild(doc, layout.up, n, c)
      requires Now() == Meet(Source(), layout.order, layout.pos(c))
      requires ok ==> owner == OwnersOf(doc, layout, layout.pos(c))
      requires OwnsRightly(doc, layout, owner)
      modifies this`next, this`byToken, this`spans, this`owner, this`ok
      ensures OwnsRightly(doc, layout, owner)
      ensures layout.end(c) <= |layout.order| && Now() == Meet(Source(), layout.order, layout.end(c))
      ensures ok ==> owner == OwnersOf(doc, layout, layout.end(c))
      decreases layout.end(c) - layout.pos(c), 2
    {
      assert Laid(doc, layout, c);
      OwnerOfNext(doc, layout, n, c);
      if n in doc.content {
        owner := owner[c := n];
      }
      Walk(c);
    }

    function ParentOf(n: Id): Option<Id>
      reads this`owner
    {
      if n in doc.parent then Some(doc.parent[n])
      else if n in owner then Some(owner[n])
      else None
    }

    /** Climbs the parent links, and the owner of a template's content where there is none. */
    method IsAncestor(a: Id, n: Id) returns (r: bool)
      requires CanClimb() && n in layout.order
      ensures r == Ancestor(layout.up, layout.pos, a, n)
    {
      var at := n;
      var cur := ParentOf(n);
      while cur.Some?
        invariant at in layout.order && cur == ParentOf(at)
        invariant Ancestor(layout.up, layout.pos, a, n) == Ancestor(layout.up, layout.pos, a, at)
        decreases layout.pos(at)
      {
        assert at != doc.root;
        if cur.value == a {
          return true;
        }
        at := cur.value;
        cur := ParentOf(at);
      }
      return false;
    }

    /** Parent links and owners lead from every node of `v` layout.up to the root, and no further. */
    ghost predicate CanClimb()
      reads this`owner
    {
      && Ranked(layout.up, layout.pos)
      && doc.root !in doc.parent && doc.root !in owner && doc.root !in layout.up
      && forall x :: x in layout.order && x != doc.root ==> HasLink(x) && layout.up[x] in layout.order
    }

    ghost predicate HasLink(x: Id)
      reads this`owner
    {
      && x in layout.up
      && if x in doc.parent then doc.parent[x] == layout.up[x] else x in owner && owner[x] == layout.up[x]
    }

    /** Elements and start tags pair off one to one, and each element begins where its tag does. */
    ghost predicate Matched()
      reads this`byToken, this`spans
    {
      OneToOne(tokens, byToken, spans) && forall x :: x in spans ==> x in layout.order && x in doc.nodes
    }

    method Close(n: Id, end: nat)
      requires n in spans
      modifies this`spans
      ensures spans == Closed(old(spans), [n], end)
    {
      spans := spans[n := spans[n].(end := end)];
    }

    ghost function ThePage(): Page
      reads this`byToken
    {
      Page(doc, tokens, byToken, layout.up, layout.pos, void)
    }

    /** Pops, and ends at `end`, whatever is open and not above `e`; `k` elements stay. */
    method PopTo(e: Id, open: seq<Id>, end: nat) returns (k: nat)
      requires CanClimb() && e in layout.order
      requires forall x :: x in open ==> x in spans
      modifies this`spans
      ensures k <= |open| && spans == Closed(old(spans), open[k..], end)
      ensures k > 0 ==> Ancestor(layout.up, layout.pos, open[k - 1], e)
      ensures forall x :: x in open[k..] ==> !Ancestor(layout.up, layout.pos, x, e)
    {
      k := |open|;
      assert Closed(spans, open[k..], end) == spans;
      while k > 0
        invariant k <= |open| && spans == Closed(old(spans), open[k..], end)
        invariant forall x :: x in open[k..] ==> !Ancestor(layout.up, layout.pos, x, e)
      {
        var above := IsAncestor(open[k - 1], e);
        if above {
          return;
        }
        assert open[k - 1..] == [open[k - 1]] + open[k..];
        k := k - 1;
        Close(open[k], end);
      }
    }

    /** A start tag closes whatever is open and not above its element, then opens the element. */
    method OpenAt(i: nat, open: seq<Id>, ghost begun: set<Id>, ghost pos: nat, ghost srcLen: nat) returns (stack: seq<Id>)
      requires CanClimb() && Matched()
      requires i in byToken && byToken[i] !in begun && pos <= tokens[i].start < tokens[i].end
      requires Running(ThePage(), spans, closedBy, open, begun, pos, i, srcLen)
      modifies this`spans, this`closedBy
      ensures Running(ThePage(), spans, closedBy, stack, begun + {byToken[i]}, tokens[i].end, i + 1, srcLen)
      ensures SameStarts(spans, old(spans))
    {
      var t, e := tokens[i], byToken[i];
      var rest := ClearFor(i, open, begun, pos, srcLen);
      if t.kind.SelfClosing? || t.name in void {
        VoidStep(ThePage(), spans, closedBy, rest, begun + {e}, i, srcLen, e);
        closedBy := Marked(closedBy, [e], i);
        Close(e, t.end);
        return rest;
      }
      return rest + [e];
    }

    /** Leaves on the stack only what is above the element opened at `i`. */
    method ClearFor(i: nat, open: seq<Id>, ghost begun: set<Id>, ghost pos: nat, ghost srcLen: nat) returns (rest: seq<Id>)
      requires CanClimb() && Matched()
      requires i in byToken && byToken[i] !in begun && pos <= tokens[i].start < tokens[i].end
      requires Running(ThePage(), spans, closedBy, open, begun, pos, i, srcLen)
      modifies this`spans, this`closedBy
      ensures Running(ThePage(), spans, closedBy, rest + [byToken[i]], begun + {byToken[i]}, tokens[i].end, i + 1, srcLen)
      ensures SameStarts(spans, old(spans))
    {
      var k := PopTo(byToken[i], open, tokens[i].start);
      OpenStep(ThePage(), old(spans), closedBy, open, begun, pos, i, srcLen, k, byToken[i]);
      closedBy := Marked(closedBy, open[k..], i);
      rest := open[..k];
    }

    /** An end tag closes the nearest open element of its name, and everything opened inside it. */
    method CloseAt(i: nat, open: seq<Id>, ghost begun: set<Id>, ghost pos: nat, ghost srcLen: nat) returns (stack: seq<Id>)
      requires Ranked(layout.up, layout.pos)
      requires i < |tokens| && tokens[i].kind.EndTag? && i !in byToken && pos <= tokens[i].start < tokens[i].end
      requires Running(ThePage(), spans, closedBy, open, begun, pos, i, srcLen)
      requires forall x :: x in open ==> x in doc.nodes
      modifies this`spans, this`closedBy
      ensures Running(ThePage(), spans, closedBy, stack, begun, tokens[i].end, i + 1, srcLen)
      ensures SameStarts(spans, old(spans))
    {
      var at := Find(tokens[i].name, open);
      if at < 0 {
        IdleStep(ThePage(), spans, closedBy, open, begun, pos, i, srcLen);
        return open;
      }
      EndStep(ThePage(), spans, closedBy, open, begun, pos, i, srcLen, at);
      closedBy := Marked(closedBy, open[at..], i);
      CloseFrom(open, at + 1, tokens[i].start);
      Close(open[at], tokens[i].end);
      stack := open[..at];
    }

    /** The innermost open element of that name, -1 when there is none. */
    method Find(name: string, open: seq<Id>) returns (at: int)
      requires forall x :: x in open ==> x in doc.nodes
      ensures -1 <= at < |open|
      ensures at >= 0 ==> EqualFold(doc.nodes[open[at]].name, name)
      ensures forall j :: at < j < |open| ==> !EqualFold(doc.nodes[open[j]].name, name)
    {
      at := |open| - 1;
      while at >= 0 && !EqualFold(doc.nodes[open[at]].name, name)
        invariant -1 <= at < |open|
        invariant forall j :: at < j < |open| ==> !EqualFold(doc.nodes[open[j]].name, name)
      {
        at := at - 1;
      }
    }

    method CloseFrom(open: seq<Id>, from: nat, end: nat)
      requires from <= |open|
      requires forall x :: x in open ==> x in spans
      modifies this`spans
      ensures spans == Closed(old(spans), open[from..], end)
    {
      assert Closed(spans, open[from..from], end) == spans;
      for j := from to |open|
        invariant spans == Closed(old(spans), open[from..j], end)
      {
        assert open[from..j + 1] == open[from..j] + [open[j]];
        Close(open[j], end);
      }
      assert open[from..|open|] == open[from..];
    }

    /** Replays the token stream with a stack of paired elements to find where each one ends. */
    method EndSpans(srcLen: nat)
      requires CanClimb() && Matched() && closedBy == map[]
      requires Contiguous(tokens, srcLen)
      modifies this`spans, this`closedBy
      ensures Laminar(spans, layout.up, layout.pos, srcLen) && AllAccounted(ThePage(), spans, closedBy, srcLen)
      ensures SameStarts(spans, old(spans))
    {
      var stack := ReplayAll(srcLen);
      DistinctStarts(tokens, byToken, spans, srcLen);
      CloseRest(stack, Reached(tokens, |tokens|), srcLen);
    }

    method ReplayAll(srcLen: nat) returns (stack: seq<Id>)
      requires CanClimb() && Matched() && closedBy == map[]
      requires Contiguous(tokens, srcLen)
      modifies this`spans, this`closedBy
      ensures Running(ThePage(), spans, closedBy, stack, spans.Keys, Reached(tokens, |tokens|), |tokens|, srcLen)
      ensures SameStarts(spans, old(spans)) && Matched()
    {
      stack := [];
      StartRunning(ThePage(), spans, srcLen);
      for i := 0 to |tokens|
        invariant Running(ThePage(), spans, closedBy, stack, BegunBefore(byToken, i), Reached(tokens, i), i, srcLen)
        invariant SameStarts(spans, old(spans)) && Matched()
      {
        ReachedBefore(tokens, srcLen, i);
        stack := Replay(i, stack, Reached(tokens, i), srcLen);
      }
      AllBegun(tokens, byToken, spans);
    }

    /** The walk, the check that it used every start tag, and the replay. */
    method PairAll(srcLen: nat) returns (paired: bool)
      requires AreStartTags(tokens, |tokens|, starts)
      requires Tree(doc, layout) && Contiguous(tokens, srcLen)
      requires Now() == State(0, map[], map[], true) && owner == map[] && closedBy == map[]
      modifies this
      ensures paired == AllPair(Source(), layout.order)
      ensures paired ==> owner == OwnersOf(doc, layout, |layout.order|)
      ensures OwnsRightly(doc, layout, owner)
      ensures paired ==>
        var order := Takers(Source(), layout.order);
        && byToken == TagsOf(Source(), order) && SameStarts(spans, SpansOf(Source(), order))
        && Laminar(spans, layout.up, layout.pos, srcLen) && AllAccounted(ThePage(), spans, closedBy, srcLen)
    {
      Walk(doc.root);
      MeetAccepts(Source(), layout.order, |layout.order|);
      assert layout.order[..|layout.order|] == layout.order;
      if next != |starts| {
        ok := false;
      }
      if !ok {
        return false;
      }
      MeetPairs(Source(), layout.order, |layout.order|);
      AfterWalk();
      EndSpans(srcLen);
      return true;
    }

    /** A finished walk leaves everything the replay needs. */
    lemma {:induction false} AfterWalk()
      requires AreStartTags(tokens, |tokens|, starts) && Tree(doc, layout)
      requires owner == OwnersOf(doc, layout, |layout.order|)
      requires var order := Takers(Source(), layout.order); byToken == TagsOf(Source(), order) && spans == SpansOf(Source(), order)
      ensures CanClimb() && Matched()
    {
      MatchedAfter();
      forall x | x in layout.order && x != doc.root ensures HasLink(x) && layout.up[x] in layout.order {
        assert Laid(doc, layout, x);
        assert x in layout.order[..|layout.order|];
      }
    }

    lemma {:induction false} MatchedAfter()
      requires AreStartTags(tokens, |tokens|, starts) && Tree(doc, layout)
      requires var order := Takers(Source(), layout.order); byToken == TagsOf(Source(), order) && spans == SpansOf(Source(), order)
      ensures Matched()
    {
      var order := Takers(Source(), layout.order);
      OrderNoRepeats(doc, layout);
      TakersFit(Source(), layout.order);
      WalkIsOneToOne(Source(), order);
      SpansKnown(Source(), order);
      forall x | x in spans ensures x in doc.nodes {
        assert Laid(doc, layout, x);
      }
    }

    /** Whatever is still open ends with the source. */
    method CloseRest(stack: seq<Id>, ghost pos: nat, srcLen: nat)
      requires Ranked(layout.up, layout.pos) && pos <= srcLen
      requires forall x, y :: x in spans && y in spans && x != y ==> spans[x].start != spans[y].start
      requires Running(ThePage(), spans, closedBy, stack, spans.Keys, pos, |tokens|, srcLen)
      modifies this`spans, this`closedBy
      ensures Laminar(spans, layout.up, layout.pos, srcLen) && AllAccounted(ThePage(), spans, closedBy, srcLen)
      ensures SameStarts(spans, old(spans))
    {
      FinalLaminar(spans, stack, pos, layout.up, layout.pos, srcLen);
      FinalAccounts(ThePage(), spans, closedBy, Elements(stack), stack, srcLen);
      closedBy := Marked(closedBy, stack, |tokens|);
      CloseFrom(stack, 0, srcLen);
      assert stack[0..] == stack;
    }

    /** One token of the replay. */
    method Replay(i: nat, open: seq<Id>, ghost pos: nat, ghost srcLen: nat) returns (stack: seq<Id>)
      requires CanClimb() && Matched()
      requires i < |tokens| && pos <= tokens[i].start < tokens[i].end
      requires Running(ThePage(), spans, closedBy, open, BegunBefore(byToken, i), pos, i, srcLen)
      modifies this`spans, this`closedBy
      ensures Running(ThePage(), spans, closedBy, stack, BegunBefore(byToken, i + 1), tokens[i].end, i + 1, srcLen)
      ensures SameStarts(spans, old(spans)) && Matched()
    {
      stack := open;
      BegunNext(tokens, byToken, spans, i);
      if i in byToken {
        stack := OpenAt(i, open, BegunBefore(byToken, i), pos, srcLen);
      } else if tokens[i].kind.EndTag? {
        stack := CloseAt(i, open, BegunBefore(byToken, i), pos, srcLen);
      } else {
        IdleStep(ThePage(), spans, closedBy, open, BegunBefore(byToken, i), pos, i, srcLen);
      }
    }
  }

  /**
   Each element's byte range, none when the tree could not be paired with the tokens. `t` lays the
   page out as a tree; `page` and `closedBy` hold the tokens each element was begun and ended by.
   */
  method SourceSpans(doc: Doc, raws: seq<Raw>, srcLen: nat, ghost t: Layout)
    returns (spans: map<Id, Span>, owner: map<Id, Id>, ghost page: Page, ghost closedBy: map<Id, nat>, ghost starts: seq<nat>)
    requires Tree(doc, t)
    requires forall i :: 0 <= i < |raws| ==> raws[i].length > 0
    requires TotalLength(raws) <= srcLen
    ensures page == Page(doc, Measured(raws), page.byToken, t.up, t.pos, VOID)
    ensures AreStartTags(page.tokens, |page.tokens|, starts) && OwnsRightly(doc, t, owner)
    ensures var s := Stream(doc, page.tokens, starts, IMPLIED);
      if AllPair(s, t.order) then
        && owner == OwnersOf(doc, t, |t.order|)
        && OneToOne(page.tokens, page.byToken, spans) && Paired(s, page.byToken, Takers(s, t.order), t.order)
        && Laminar(spans, t.up, t.pos, srcLen) && AllAccounted(page, spans, closedBy, srcLen)
      else spans == map[]
  {
    var tokens := TokenizeSource(raws);
    var p := new Pairing(doc, tokens, t);
    var paired := p.PairAll(srcLen);
    owner, page, closedBy, starts := p.owner, p.ThePage(), p.closedBy, p.starts;
    if !paired {
      return map[], owner, page, closedBy, starts;
    }
    spans := p.spans;
    Summary(p.Source(), t, p.byToken, spans);
  }

  lemma {:induction false} Summary(s: Stream, t: Layout, byToken: map<nat, Id>, spans: map<Id, Span>)
    requires AreStartTags(s.tokens, |s.tokens|, s.starts)
    requires Tree(s.doc, t) && AllPair(s, t.order)
    requires byToken == TagsOf(s, Takers(s, t.order)) && SameStarts(spans, SpansOf(s, Takers(s, t.order)))
    ensures OneToOne(s.tokens, byToken, spans)
    ensures Paired(s, byToken, Takers(s, t.order), t.order)
  {
    OrderNoRepeats(s.doc, t);
    TakersFit(s, t.order);
    AcceptedAreImplied(s, t.order);
    WalkIsOneToOne(s, Takers(s, t.order));
    TagsKnown(s, Takers(s, t.order));
  }
}
