/**
 Replacing the bytes of the elements a write touched (internal/dataapi/splice.go).

 The result is parsed and rendered again, and only trusted when that render is the full render of
 the written tree; otherwise the full render itself is returned.
 */
module Splice {
  import opened PageTree
  import opened Sequences
  import opened Spans
  import opened TextSplice
  import opened Values

  type Bytes = seq<bv8>

  datatype WriteResult = WriteResult(html: Bytes, changed: bool, spliced: bool)

  /** What a write left behind. `parent` holds the links of the tree as written. */
  datatype Written = Written(
    root: Id, documents: set<Id>, parent: map<Id, Id>, owner: map<Id, Id>,
    dirty: set<Id>, cloned: set<Id>, spans: map<Id, Span>)

  /** A template's content keeps no parent link of its own; its template is still its parent. */
  function TreeParent(w: Written, n: Id): Option<Id> {
    if n in w.parent then Some(w.parent[n])
    else if n in w.owner then Some(w.owner[n])
    else None
  }

  // ----- what the tree says -----

  /** The tree as written, template content included. */
  ghost function Links(w: Written): map<Id, Id> {
    map n | n in w.parent.Keys + w.owner.Keys :: if n in w.parent then w.parent[n] else w.owner[n]
  }

  ghost predicate Rooted(w: Written, depth: Depth) {
    Ranked(Links(w), depth) && w.root !in Links(w)
  }

  ghost predicate Attached(w: Written, depth: Depth, n: Id)
    requires Rooted(w, depth)
  {
    AtOrAbove(Links(w), depth, w.root, n)
  }

  /** The nearest element at or above `n` that the source holds and the write did not copy. */
  ghost function Located(w: Written, depth: Depth, n: Id): Option<Id>
    requires Rooted(w, depth)
    decreases depth(n)
  {
    if n in w.documents then None
    else if n in w.spans && n !in w.cloned then Some(n)
    else if n in Links(w) then Located(w, depth, Links(w)[n])
    else None
  }

  ghost predicate AllLocated(w: Written, depth: Depth)
    requires Rooted(w, depth)
  {
    forall r :: r in w.dirty && Attached(w, depth, r) ==> Located(w, depth, r).Some?
  }

  ghost function Targets(w: Written, depth: Depth, among: set<Id>): set<Id>
    requires Rooted(w, depth)
  {
    set r | r in among && Attached(w, depth, r) && Located(w, depth, r).Some? :: Located(w, depth, r).value
  }

  ghost predicate Covered(w: Written, depth: Depth, targets: set<Id>, r: Id)
    requires Rooted(w, depth)
  {
    exists a :: a in targets && Ancestor(Links(w), depth, a, r)
  }

  /** The targets no other target holds. */
  ghost function Topmost(w: Written, depth: Depth): set<Id>
    requires Rooted(w, depth)
  {
    set r | r in Targets(w, depth, w.dirty) && !Covered(w, depth, Targets(w, depth, w.dirty), r)
  }

  /** The source with the spans of `order` replaced by what the elements look like now. */
  ghost function EditsOf(spans: map<Id, Span>, order: seq<Id>, outer: Id -> Bytes): (edits: seq<Edit<bv8>>)
    requires forall x :: x in order ==> x in spans
    ensures |edits| == |order|
    ensures forall i :: 0 <= i < |order| ==> edits[i] == Edit(spans[order[i]].start, spans[order[i]].end, outer(order[i]))
  {
    if order == [] then []
    else [Edit(spans[order[0]].start, spans[order[0]].end, outer(order[0]))] + EditsOf(spans, order[1..], outer)
  }

  // ----- the loops -----

  method IsAttached(w: Written, r: Id, ghost depth: Depth) returns (attached: bool)
    requires Rooted(w, depth)
    ensures attached == Attached(w, depth, r)
  {
    var n := r;
    var p := TreeParent(w, n);
    while p.Some?
      invariant p == TreeParent(w, n)
      invariant Attached(w, depth, r) == Attached(w, depth, n)
      decreases depth(n)
    {
      n := p.value;
      p := TreeParent(w, n);
    }
    return n == w.root;
  }

  method FindLocated(w: Written, r: Id, ghost depth: Depth) returns (at: Option<Id>)
    requires Rooted(w, depth)
    ensures at == Located(w, depth, r)
  {
    var cur := Some(r);
    while cur.Some? && cur.value !in w.documents
      invariant Located(w, depth, r) == if cur.Some? then Located(w, depth, cur.value) else None
      decreases if cur.Some? then depth(cur.value) + 1 else 0
    {
      if cur.value !in w.cloned && cur.value in w.spans {
        return cur;
      }
      cur := TreeParent(w, cur.value);
    }
    return None;
  }

  method HasAncestorIn(w: Written, r: Id, targets: set<Id>, ghost depth: Depth) returns (covered: bool)
    requires Rooted(w, depth)
    ensures covered == Covered(w, depth, targets, r)
  {
    ghost var at := r;
    var cur := TreeParent(w, r);
    while cur.Some?
      invariant cur == TreeParent(w, at)
      invariant Covered(w, depth, targets, r) == Covered(w, depth, targets, at)
      decreases depth(at)
    {
      CoveredUp(w, depth, targets, at, cur.value);
      if cur.value in targets {
        return true;
      }
      at := cur.value;
      cur := TreeParent(w, cur.value);
    }
    return false;
  }

  lemma {:induction false} CoveredUp(w: Written, depth: Depth, targets: set<Id>, at: Id, p: Id)
    requires Rooted(w, depth) && at in Links(w) && Links(w)[at] == p
    ensures Covered(w, depth, targets, at) == (p in targets || Covered(w, depth, targets, p))
  {
    if p in targets {
      assert Ancestor(Links(w), depth, p, at);
    }
    if a :| a in targets && Ancestor(Links(w), depth, a, p) {
      assert Ancestor(Links(w), depth, a, at);
    }
  }

  /** The elements to replace; none when a touched one has no place in the source. */
  method CollectTargets(w: Written, ghost depth: Depth) returns (targets: Option<set<Id>>)
    requires Rooted(w, depth)
    ensures targets == if AllLocated(w, depth) then Some(Targets(w, depth, w.dirty)) else None
  {
    var found: set<Id> := {};
    var rest := w.dirty;
    while rest != {}
      invariant rest <= w.dirty
      invariant forall r :: r in w.dirty - rest && Attached(w, depth, r) ==> Located(w, depth, r).Some?
      invariant found == Targets(w, depth, w.dirty - rest)
      decreases rest
    {
      var r :| r in rest;
      var attached := IsAttached(w, r, depth);
      if attached {
        var at := FindLocated(w, r, depth);
        if at.None? {
          return None;
        }
        found := found + {at.value};
      }
      rest := rest - {r};
    }
    assert w.dirty - rest == w.dirty;
    return Some(found);
  }

  method CollectTopmost(w: Written, targets: set<Id>, ghost depth: Depth) returns (top: set<Id>)
    requires Rooted(w, depth)
    ensures top == set r | r in targets && !Covered(w, depth, targets, r)
  {
    top := {};
    var rest := targets;
    while rest != {}
      invariant rest <= targets
      invariant top == set r | r in targets - rest && !Covered(w, depth, targets, r)
      decreases rest
    {
      var r :| r in rest;
      var covered := HasAncestorIn(w, r, targets, depth);
      if !covered {
        top := top + {r};
      }
      rest := rest - {r};
    }
  }

  /** The elements in the order they begin; no two begin together. */
  method SortByStart(spans: map<Id, Span>, top: set<Id>) returns (order: seq<Id>)
    requires top <= spans.Keys
    requires forall x, y :: x in top && y in top && x != y ==> spans[x].start != spans[y].start
    ensures Ordered(spans, order) && Elements(order) == top
  {
    order := [];
    var rest := top;
    while rest != {}
      invariant rest <= top && Ordered(spans, order) && Elements(order) == top - rest
      decreases rest
    {
      var r :| r in rest;
      assert forall x :: x in order ==> x in Elements(order);
      order := InsertByStart(spans, order, r);
      rest := rest - {r};
    }
  }

  method InsertByStart(spans: map<Id, Span>, order: seq<Id>, r: Id) returns (more: seq<Id>)
    requires Ordered(spans, order) && r in spans
    requires forall x :: x in order ==> spans[x].start != spans[r].start
    ensures Ordered(spans, more) && Elements(more) == Elements(order) + {r}
  {
    var k := 0;
    while k < |order| && spans[order[k]].start < spans[r].start
      invariant k <= |order|
      invariant forall i :: 0 <= i < k ==> spans[order[i]].start < spans[r].start
    {
      k := k + 1;
    }
    assert k < |order| ==> order[k] in order;
    more := order[..k] + [r] + order[k..];
    Inserted(spans, order[..k], order[k..], r);
    assert order == order[..k] + order[k..];
  }

  lemma {:induction false} Inserted(spans: map<Id, Span>, before: seq<Id>, after: seq<Id>, r: Id)
    requires Ordered(spans, before + after) && r in spans
    requires forall i :: 0 <= i < |before| ==> before[i] in spans && spans[before[i]].start < spans[r].start
    requires after != [] ==> after[0] in spans && spans[r].start < spans[after[0]].start
    ensures Ordered(spans, before + [r] + after) && Elements(before + [r] + after) == Elements(before + after) + {r}
  {
    var all, more := before + after, before + [r] + after;
    assert forall j :: 0 <= j < |after| ==> after[j] == all[|before| + j];
    forall a | 0 <= a < |more| ensures more[a] in spans {
      assert a > |before| ==> more[a] == after[a - |before| - 1];
    }
    forall a, b | 0 <= a < b < |more| ensures spans[more[a]].start < spans[more[b]].start {
      assert a > |before| ==> more[a] == after[a - |before| - 1];
      assert b > |before| ==> more[b] == after[b - |before| - 1];
      assert a < |before| ==> more[a] == all[a];
      assert b < |before| ==> more[b] == all[b];
    }
    assert forall x :: x in more <==> x in before || x == r || x in after;
  }

  /** Replaces the ranges from the last one back; gives up when one reaches into the one behind it. */
  method ReplaceBackwards(src: Bytes, edits: seq<Edit<bv8>>) returns (out: Option<Bytes>)
    requires forall i :: 0 <= i < |edits| ==> edits[i].start <= edits[i].end <= |src|
    ensures out.Some? == Ascending(edits, 0, |src|)
    ensures out.Some? ==> out.value == Patched(src, 0, edits)
  {
    var text := src;
    var prevStart: nat := |src|;
    var k := |edits|;
    assert edits[k..] == [];
    while k > 0
      invariant k <= |edits| && prevStart <= |src|
      invariant Ascending(edits[k..], prevStart, |src|)
      invariant prevStart == if k < |edits| then edits[k].start else |src|
      invariant Ascending(edits[k..], 0, |src|) && text == Patched(src, 0, edits[k..])
    {
      k := k - 1;
      var e := edits[k];
      assert edits[k..] == [e] + edits[k + 1..];
      if e.end > prevStart {
        if Ascending(edits, 0, |src|) {
          AscendingAt(edits, 0, |src|, k);
        }
        return None;
      }
      PatchInFront(src, e, edits[k + 1..]);
      text := ReplaceAt(text, e);
      prevStart := e.start;
    }
    assert edits[0..] == edits;
    return Some(text);
  }

  // ----- the whole -----

  /** What the elements in `order` look like now, in the source. */
  ghost function SplicedText(w: Written, src: Bytes, order: seq<Id>, outer: Id -> Bytes): Option<Bytes>
    requires Ordered(w.spans, order)
  {
    var edits := EditsOf(w.spans, order, outer);
    if Ascending(edits, 0, |src|) then Some(Patched(src, 0, edits)) else None
  }

  /** The spliced text, parsed and rendered again, gives the full render of the written tree. */
  ghost predicate Trusted<P>(w: Written, src: Bytes, full: Bytes, order: seq<Id>, outer: Id -> Bytes, parse: Bytes -> Option<P>, render: P -> Bytes)
    requires Ordered(w.spans, order)
  {
    var text := SplicedText(w, src, order, outer);
    text.Some? && parse(text.value).Some? && render(parse(text.value).value) == full
  }

  /**
   Replaces the span of every topmost element the write touched with what it looks like now. `full`
   is the render of the whole tree as written; `order` are the elements replaced.
   */
  method Splice<P>(w: Written, src: Bytes, full: Bytes, outer: Id -> Bytes, parse: Bytes -> Option<P>, render: P -> Bytes, ghost depth: Depth)
    returns (r: WriteResult, ghost order: seq<Id>)
    requires Rooted(w, depth)
    requires forall x :: x in w.spans ==> w.spans[x].start <= w.spans[x].end <= |src|
    requires forall x, y :: x in w.spans && y in w.spans && x != y ==> w.spans[x].start != w.spans[y].start
    ensures AllLocated(w, depth) ==> Ordered(w.spans, order) && Elements(order) == Topmost(w, depth)
    ensures r.changed == (r.html != src)
    ensures
      if AllLocated(w, depth) && Trusted(w, src, full, order, outer, parse, render) then
        r.spliced && Some(r.html) == SplicedText(w, src, order, outer)
      else !r.spliced && r.html == full
  {
    var fallback := WriteResult(full, full != src, false);
    var targets := CollectTargets(w, depth);
    LocatedHasSpan(w, depth);
    if targets.None? {
      return fallback, [];
    }
    var top := CollectTopmost(w, targets.value, depth);
    var sorted := SortByStart(w.spans, top);
    order := sorted;
    assert forall x :: x in sorted ==> x in w.spans;
    var edits := BuildEdits(w.spans, sorted, outer);
    var out := ReplaceBackwards(src, edits);
    if out.None? {
      return fallback, order;
    }
    var check := parse(out.value);
    if check.None? || render(check.value) != full {
      return fallback, order;
    }
    return WriteResult(out.value, out.value != src, true), order;
  }

  method BuildEdits(spans: map<Id, Span>, order: seq<Id>, outer: Id -> Bytes) returns (edits: seq<Edit<bv8>>)
    requires forall x :: x in order ==> x in spans
    ensures edits == EditsOf(spans, order, outer)
  {
    edits := [];
    for i := 0 to |order|
      invariant |edits| == i
      invariant forall k :: 0 <= k < i ==> edits[k] == EditsOf(spans, order, outer)[k]
    {
      edits := edits + [Edit(spans[order[i]].start, spans[order[i]].end, outer(order[i]))];
    }
  }

  lemma {:induction false} LocatedHasSpan(w: Written, depth: Depth)
    requires Rooted(w, depth)
    ensures Targets(w, depth, w.dirty) <= w.spans.Keys
  {
    forall r | r in w.dirty && Attached(w, depth, r) && Located(w, depth, r).Some? ensures Located(w, depth, r).value in w.spans {
      NearestIsAbove(w, depth, r);
    }
  }

  lemma {:induction false} NearestIsAbove(w: Written, depth: Depth, r: Id)
    requires Rooted(w, depth) && Located(w, depth, r).Some?
    ensures var at := Located(w, depth, r).value; at in w.spans && at !in w.cloned && AtOrAbove(Links(w), depth, at, r)
    ensures Attached(w, depth, r) ==> Attached(w, depth, Located(w, depth, r).value)
    decreases depth(r)
  {
    if !(r in w.spans && r !in w.cloned) {
      NearestIsAbove(w, depth, Links(w)[r]);
    }
  }

  // ----- what the spans give -----

  /** A write moves elements under their own parent only, or takes them out of the tree. */
  ghost predicate StaysPut(w: Written, up: map<Id, Id>) {
    && w.root !in up
    && forall n :: n in up && n in Links(w) ==> Links(w)[n] == up[n]
  }

  /** What held an element when the page was parsed still holds it while it is attached. */
  lemma {:induction false} StillAbove(w: Written, up: map<Id, Id>, before: Depth, depth: Depth, x: Id, y: Id)
    requires Rooted(w, depth) && Ranked(up, before) && StaysPut(w, up)
    requires Ancestor(up, before, x, y) && Attached(w, depth, y)
    ensures Ancestor(Links(w), depth, x, y)
    decreases before(y)
  {
    assert y in Links(w) && Links(w)[y] == up[y];
    if up[y] != x {
      StillAbove(w, up, before, depth, x, up[y]);
    }
  }

  /** The topmost elements do not overlap, so the edits never have to be given up for that. */
  lemma {:induction false} TopmostApart(w: Written, up: map<Id, Id>, before: Depth, depth: Depth, srcLen: nat, order: seq<Id>, outer: Id -> Bytes)
    requires Rooted(w, depth) && Ranked(up, before) && StaysPut(w, up)
    requires Laminar(w.spans, up, before, srcLen)
    requires Ordered(w.spans, order) && Elements(order) == Topmost(w, depth)
    ensures forall x :: x in order ==> x in w.spans
    ensures Ascending(EditsOf(w.spans, order, outer), 0, srcLen)
  {
    var edits := EditsOf(w.spans, order, outer);
    forall i, j | 0 <= i < j < |edits| ensures edits[i].end <= edits[j].start {
      var x, y := order[i], order[j];
      assert x in Elements(order) && y in Elements(order);
      assert Nests(w.spans, up, before, x, y);
      if Ancestor(up, before, x, y) {
        HeldByTarget(w, up, before, depth, x, y);
      }
    }
    AscendingFromPairs(edits, 0, srcLen);
  }

  lemma {:induction false} HeldByTarget(w: Written, up: map<Id, Id>, before: Depth, depth: Depth, x: Id, y: Id)
    requires Rooted(w, depth) && Ranked(up, before) && StaysPut(w, up)
    requires x in Targets(w, depth, w.dirty) && y in Targets(w, depth, w.dirty) && Ancestor(up, before, x, y)
    ensures Covered(w, depth, Targets(w, depth, w.dirty), y)
  {
    var r :| r in w.dirty && Attached(w, depth, r) && Located(w, depth, r).Some? && Located(w, depth, r).value == y;
    NearestIsAbove(w, depth, r);
    StillAbove(w, up, before, depth, x, y);
  }

  /** Every byte outside the replaced elements is still there, in order. */
  lemma {:induction false} ElsewhereKept(w: Written, src: Bytes, order: seq<Id>, outer: Id -> Bytes, at: nat)
    requires Ordered(w.spans, order) && SplicedText(w, src, order, outer).Some? && at < |src|
    requires forall x :: x in order ==> at < w.spans[x].start || w.spans[x].end <= at
    ensures
      var text, now := SplicedText(w, src, order, outer).value, at + Shift(EditsOf(w.spans, order, outer), at);
      0 <= now < |text| && text[now] == src[at]
  {
    OutsideKept(src, 0, EditsOf(w.spans, order, outer), at);
  }
}
