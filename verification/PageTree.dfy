/** The parsed page as nodes with child sequences and parent links (internal/dataapi/tree.go). */
module PageTree {
  import opened Sequences

  type Id = nat

  /** What the offsets read of a node. Attribute names carry their namespace prefix. */
  datatype Node = Node(element: bool, name: string, attrs: seq<string>)

  /**
   A template's children sit in `content` and have no parent link of their own; every other child
   sits in `kids` and has one.
   */
  datatype Doc = Doc(root: Id, nodes: map<Id, Node>, kids: map<Id, seq<Id>>, content: map<Id, seq<Id>>, parent: map<Id, Id>)

  /** How far below the root a node sits. */
  type Depth = Id -> nat

  /** Parent links lead upwards. */
  ghost predicate Ranked(up: map<Id, Id>, depth: Depth) {
    forall n :: n in up ==> depth(up[n]) < depth(n)
  }

  ghost predicate Ancestor(up: map<Id, Id>, depth: Depth, a: Id, n: Id)
    requires Ranked(up, depth)
    decreases depth(n)
  {
    n in up && (up[n] == a || Ancestor(up, depth, a, up[n]))
  }

  ghost predicate AtOrAbove(up: map<Id, Id>, depth: Depth, a: Id, n: Id)
    requires Ranked(up, depth)
  {
    a == n || Ancestor(up, depth, a, n)
  }

  lemma {:induction false} AncestorTransitive(up: map<Id, Id>, depth: Depth, a: Id, b: Id, n: Id)
    requires Ranked(up, depth)
    requires Ancestor(up, depth, a, b) && Ancestor(up, depth, b, n)
    ensures Ancestor(up, depth, a, n)
    decreases depth(n)
  {
    if up[n] != b {
      AncestorTransitive(up, depth, a, b, up[n]);
    }
  }

  lemma {:induction false} AncestorIsHigher(up: map<Id, Id>, depth: Depth, a: Id, n: Id)
    requires Ranked(up, depth) && Ancestor(up, depth, a, n)
    ensures depth(a) < depth(n)
    decreases depth(n)
  {
    if up[n] != a {
      AncestorIsHigher(up, depth, a, up[n]);
    }
  }

  /** A template's content when it has one, the children otherwise. */
  function Children(doc: Doc, n: Id): seq<Id> {
    if n in doc.content then doc.content[n] else if n in doc.kids then doc.kids[n] else []
  }

  /**
   Document order: node `n` stands at `pos(n)`, and everything at or below it fills
   `order[pos(n)..end(n)]`. `up` is every node's one parent, template content included.
   */
  datatype Layout = Layout(order: seq<Id>, pos: Id -> nat, end: Id -> nat, up: map<Id, Id>)

  /** Where the first `i` subtrees below `n` end. */
  ghost function Stop(doc: Doc, t: Layout, n: Id, i: nat): nat
    requires i <= |Children(doc, n)|
  {
    if i == 0 then t.pos(n) + 1 else t.end(Children(doc, n)[i - 1])
  }

  ghost predicate IsChild(doc: Doc, up: map<Id, Id>, n: Id, c: Id) {
    && c in up && up[c] == n
    && if n in doc.content then c !in doc.parent else c in doc.parent && doc.parent[c] == n
  }

  /** Child `i` of `n` begins where the subtrees before it end, and ends no later than `n` does. */
  ghost predicate Stands(doc: Doc, t: Layout, n: Id, i: nat)
    requires i < |Children(doc, n)|
  {
    var c := Children(doc, n)[i];
    && IsChild(doc, t.up, n, c)
    && t.pos(c) == Stop(doc, t, n, i) && t.pos(c) < t.end(c) <= t.end(n)
    && t.pos(c) < |t.order| && t.order[t.pos(c)] == c
  }

  /** Where one node stands. */
  ghost predicate Laid(doc: Doc, t: Layout, n: Id) {
    && n in doc.nodes
    && t.pos(n) < t.end(n) <= |t.order| && t.order[t.pos(n)] == n
    && t.end(n) == Stop(doc, t, n, |Children(doc, n)|)
    && (n != doc.root ==> n in t.up && t.up[n] in t.order && IsChild(doc, t.up, t.up[n], n))
    && forall i {:trigger Stands(doc, t, n, i)} :: 0 <= i < |Children(doc, n)| ==> Stands(doc, t, n, i)
  }

  /** The page is a tree and `t` lays it out in document order. */
  ghost predicate Tree(doc: Doc, t: Layout) {
    && doc.root in t.order && t.pos(doc.root) == 0 && t.end(doc.root) == |t.order|
    && doc.root !in t.up && doc.root !in doc.parent
    && (forall n {:trigger Laid(doc, t, n)} :: n in t.order ==> Laid(doc, t, n))
    && (forall k :: 0 <= k < |t.order| ==> t.pos(t.order[k]) == k)
    && Ranked(t.up, t.pos)
  }

  lemma {:induction false} OrderNoRepeats(doc: Doc, t: Layout)
    requires Tree(doc, t)
    ensures NoRepeats(t.order)
  {
  }
}
