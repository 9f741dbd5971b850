/**
 Copying nodes (cloneNode and stripIds of internal/dataapi/listdiff.go): a copy mirrors what it was made of,
 less what opted out and the ids, and hangs among new nodes only.
 */
module Clones {
  import opened Dom
  import opened PageTree
  import opened Rows
  import opened Sequences
  import opened Values

  // ----- what a copy looks like -----

  /** A copied node itself loses an id it has a value for. */
  function StripId(c: NodeData): NodeData {
    if c.Element? && AttrValue(c.attrs, "id").Some? && AttrValue(c.attrs, "id").value != ""
    then c.(attrs := RemoveAttr(c.attrs, "id")) else c
  }

  /** What it holds loses any id. */
  function NoId(c: NodeData): NodeData {
    if c.Element? then c.(attrs := RemoveAttr(c.attrs, "id")) else c
  }

  function StripSeedMark(c: NodeData): NodeData {
    if c.Element? then c.(attrs := RemoveAttr(c.attrs, "cms-template")) else c
  }

  lemma {:induction false} StillCounted(c: NodeData, tokens: string -> set<string>)
    ensures NoData(StripId(c), tokens) == NoData(c, tokens) && StripId(c).Element? == c.Element?
    ensures NoData(StripSeedMark(c), tokens) == NoData(c, tokens) && StripSeedMark(c).Element? == c.Element?
  {
    if c.Element? {
      forall key | key in ["no-data", "editor-ui", "clay"]
        ensures AttrValue(RemoveAttr(c.attrs, "id"), key) == AttrValue(c.attrs, key)
        ensures AttrValue(RemoveAttr(c.attrs, "cms-template"), key) == AttrValue(c.attrs, key)
      {
        RemoveAttrKeeps(c.attrs, "id", key);
        RemoveAttrKeeps(c.attrs, "cms-template", key);
      }
      assert "no-data" in ["no-data", "editor-ui", "clay"] && "editor-ui" in ["no-data", "editor-ui", "clay"] && "clay" in ["no-data", "editor-ui", "clay"];
    }
  }

  /** Nodes that are copied with what holds them. */
  function Plain(dom: Dom, tokens: string -> set<string>): set<Id> {
    set n | n in dom.nodes && !NoData(dom.nodes[n], tokens)
  }

  /** Node by node, `ys` are copies of `xs`; `of` tells what each copy was made of. */
  ghost predicate Match(of: map<Id, Id>, ys: seq<Id>, xs: seq<Id>) {
    |ys| == |xs| && forall i :: 0 <= i < |ys| ==> ys[i] in of && of[ys[i]] == xs[i]
  }

  /** The copy `y` looks like what it was made of and holds copies of what that held; the root's own look is told apart. */
  ghost predicate Mirrors(start: Dom, after: Dom, plain: set<Id>, of: map<Id, Id>, root: Id, y: Id)
    requires y in of
  {
    && y in after.nodes && of[y] in start.nodes && (y == root || after.nodes[y] == NoId(start.nodes[of[y]]))
    && Match(of, Kids(after, y), Kept(Kids(start, of[y]), plain))
  }

  ghost predicate AllMirror(start: Dom, after: Dom, plain: set<Id>, of: map<Id, Id>, root: Id) {
    forall y {:trigger Mirrors(start, after, plain, of, root, y)} :: y in of ==> Mirrors(start, after, plain, of, root, y)
  }

  /** The same for every copy but the root, which is still being made. */
  ghost predicate AllBut(start: Dom, after: Dom, plain: set<Id>, of: map<Id, Id>, root: Id) {
    forall y {:trigger Mirrors(start, after, plain, of, root, y)} :: y in of && y != root ==> Mirrors(start, after, plain, of, root, y)
  }

  /** Below `c` stands a copy, in new nodes, of what stands below `n`. */
  ghost predicate IsCopy(there: set<Id>, start: Dom, after: Dom, tokens: string -> set<string>, n: Id, c: Id) {
    exists of: map<Id, Id> :: c in of && of[c] == n && of.Keys !! there && AllMirror(start, after, Plain(start, tokens), of, c)
  }

  // ----- a tree that grew -----

  ghost predicate New(before: Dom, after: Dom, q: Id) {
    q in after.nodes && q !in before.nodes
  }

  /** Nothing that was there has changed, and what is new hangs among what is new. */
  ghost predicate Grew(before: Dom, after: Dom) {
    && Sound(after)
    && (forall n :: n in before.nodes ==> n in after.nodes && after.nodes[n] == before.nodes[n])
    && (forall q {:trigger Kids(after, q)} :: !New(before, after, q) ==> Kids(after, q) == Kids(before, q))
    && (forall c :: c in before.parent ==> c in after.parent && after.parent[c] == before.parent[c] && !New(before, after, before.parent[c]))
    && forall c :: c in after.parent && c !in before.parent ==> New(before, after, c) && New(before, after, after.parent[c])
  }

  lemma {:induction false} NothingGrew(dom: Dom)
    requires Sound(dom)
    ensures Grew(dom, dom)
  {
  }

  lemma {:induction false} GrewTwice(a: Dom, b: Dom, c: Dom)
    requires Grew(a, b) && Grew(b, c)
    ensures Grew(a, c)
  {
    forall q | !New(a, c, q) ensures Kids(c, q) == Kids(a, q) {
      assert !New(a, b, q) && (!New(b, c, q) || q in a.nodes);
    }
  }

  lemma {:induction false} GrewShows(before: Dom, after: Dom, tokens: string -> set<string>, q: Id)
    requires Sound(before) && Grew(before, after) && !New(before, after, q)
    ensures ContentChildren(after, tokens, q) == ContentChildren(before, tokens, q)
    ensures Others(after, tokens, q) == Others(before, tokens, q)
  {
    var ks := Kids(before, q);
    KeptAgree(ks, Shown(before, tokens), Shown(after, tokens));
    KeptAgree(ks, before.nodes.Keys - Shown(before, tokens), after.nodes.Keys - Shown(after, tokens));
  }

  lemma {:induction false} FirstHangs(dom: Dom, c: Id)
    requires Sound(dom) && Kids(dom, c) != []
    ensures Kids(dom, c)[0] in dom.parent && dom.parent[Kids(dom, c)[0]] == c
  {
    assert Kids(dom, c)[0] in dom.kids[c];
  }

  /** One more node, that hangs nowhere and is held by nothing. */
  lemma {:induction false} GrewOne(dom: Dom, c: Id, data: NodeData)
    requires Sound(dom) && c !in dom.nodes && forall x :: x in dom.parent ==> dom.parent[x] != c
    ensures var after := dom.(nodes := dom.nodes[c := data]); Grew(dom, after) && c !in after.parent && Kids(after, c) == []
  {
    var after := dom.(nodes := dom.nodes[c := data]);
    assert c !in dom.parent && Sound(after);
    forall q ensures Kids(after, q) == Kids(dom, q) {
    }
    if Kids(dom, c) != [] {
      FirstHangs(dom, c);
    }
  }

  lemma {:induction false} SoundOtherwise(dom: Dom, c: Id, data: NodeData)
    requires Sound(dom)
    ensures Sound(dom.(nodes := dom.nodes[c := data])) && forall q :: Kids(dom.(nodes := dom.nodes[c := data]), q) == Kids(dom, q)
  {
  }

  /** What is new may look otherwise. */
  lemma {:induction false} GrewOtherwise(before: Dom, after: Dom, c: Id, data: NodeData)
    requires Grew(before, after) && New(before, after, c)
    ensures Grew(before, after.(nodes := after.nodes[c := data]))
  {
    var now := after.(nodes := after.nodes[c := data]);
    SoundOtherwise(after, c, data);
    forall q | !New(before, now, q) ensures Kids(now, q) == Kids(before, q) {
      assert !New(before, after, q) && Kids(now, q) == Kids(after, q);
    }
  }

  /** What is new may be put below what is new. */
  lemma {:induction false} GrewPlaced(before: Dom, after: Dom, p: Id, c: Id)
    requires Grew(before, after) && New(before, after, p) && New(before, after, c) && c !in after.parent
    ensures Grew(before, Placed(after, p, c, |Kids(after, p)|))
  {
    var now := Placed(after, p, c, |Kids(after, p)|);
    PlacedSound(after, p, c, |Kids(after, p)|);
    forall q | !New(before, now, q) ensures Kids(now, q) == Kids(before, q) {
      assert !New(before, after, q);
    }
  }

  // ----- copies stay copies -----

  lemma {:induction false} PlainSame(start: Dom, later: Dom, tokens: string -> set<string>, x: Id)
    requires Sound(start) && Grew(start, later) && x in start.nodes
    ensures Kept(Kids(later, x), Plain(later, tokens)) == Kept(Kids(start, x), Plain(start, tokens))
  {
    assert !New(start, later, x);
    KeptAgree(Kids(start, x), Plain(start, tokens), Plain(later, tokens));
  }

  /** A copy stays one while more is made, and what it was made of is still there to be seen. */
  lemma {:induction false} CopyStays(start: Dom, after: Dom, later: Dom, tokens: string -> set<string>, of: map<Id, Id>, root: Id)
    requires Sound(start) && Grew(start, later) && Grew(after, later) && AllMirror(start, after, Plain(start, tokens), of, root)
    ensures AllMirror(start, later, Plain(start, tokens), of, root) && AllMirror(later, later, Plain(later, tokens), of, root)
  {
    forall y | y in of ensures Mirrors(start, later, Plain(start, tokens), of, root, y) && Mirrors(later, later, Plain(later, tokens), of, root, y) {
      assert Mirrors(start, after, Plain(start, tokens), of, root, y) && !New(after, later, y);
      PlainSame(start, later, tokens, of[y]);
    }
  }

  /** The root's own look may still change. */
  lemma {:induction false} RootRelooks(start: Dom, after: Dom, plain: set<Id>, of: map<Id, Id>, root: Id, data: NodeData)
    requires root in of && AllMirror(start, after, plain, of, root)
    ensures AllMirror(start, after.(nodes := after.nodes[root := data]), plain, of, root)
  {
    var now := after.(nodes := after.nodes[root := data]);
    forall y | y in of ensures Mirrors(start, now, plain, of, root, y) {
      assert Mirrors(start, after, plain, of, root, y);
    }
  }

  // ----- one copy under way -----

  /** A node being copied: the tree its like stands in, the tree the copy began in, the node and the copy's number. */
  datatype Copier = Idle | Copier(start: Dom, plain: set<Id>, before: Dom, n: Id, c: Id)

  /** The copy hangs nowhere and looks like its like; all that was made since is copies, numbered from its own on. */
  ghost predicate Stands(w: Copier, dom: Dom, of: map<Id, Id>) {
    match w
    case Idle => false
    case Copier(start, _, before, n, c) =>
      var loose := Grew(before, dom) && New(before, dom, c) && c !in dom.parent;
      var like := c in of && of[c] == n && n in start.nodes && c in dom.nodes && dom.nodes[c] == start.nodes[n];
      var since := dom.nodes.Keys == before.nodes.Keys + of.Keys && of.Keys !! before.nodes.Keys && forall y :: y in of ==> c <= y;
      loose && like && since
  }

  /** The copy holds copies of the first `i` children, and the other copies mirror what they were made of. */
  ghost predicate Holds(w: Copier, dom: Dom, of: map<Id, Id>, i: nat) {
    match w
    case Idle => false
    case Copier(start, plain, _, n, c) =>
      && i <= |Kids(start, n)|
      && AllBut(start, dom, plain, of, c) && Match(of, Kids(dom, c), KeptUpTo(Kids(start, n), plain, i))
  }

  ghost predicate Underway(w: Copier, dom: Dom, of: map<Id, Id>, i: nat) {
    Stands(w, dom, of) && Holds(w, dom, of, i)
  }

  /** The copy `cc` put behind what `c` already holds, without an id. */
  function Adopted(dom: Dom, c: Id, cc: Id): Dom
    requires cc in dom.nodes
  {
    Placed(dom.(nodes := dom.nodes[cc := NoId(dom.nodes[cc])]), c, cc, |Kids(dom, c)|)
  }

  /** A copy may be begun of a node that sits above `top` in a tree whose links lead upwards. */
  ghost predicate Startable(w: Copier, up: map<Id, Option<Id>>, depth: Depth, top: nat) {
    match w
    case Idle => false
    case Copier(start, _, before, n, c) =>
      var known := Sound(start) && Grew(start, before) && n in start.nodes;
      var shallow := Homed(start.parent, up) && forall x {:trigger depth(x)} :: x in start.nodes ==> depth(x) < top;
      known && shallow
  }

  lemma {:induction false} CopyBegins(w: Copier, up: map<Id, Option<Id>>, depth: Depth, top: nat)
    requires w.Copier? && Startable(w, up, depth, top)
    requires w.c !in w.before.nodes && forall x :: x in w.before.parent ==> w.before.parent[x] != w.c
    ensures w.n in w.before.nodes && Kids(w.before, w.n) == Kids(w.start, w.n)
    ensures Underway(w, w.before.(nodes := w.before.nodes[w.c := w.before.nodes[w.n]]), map[w.c := w.n], 0)
  {
    assert !New(w.start, w.before, w.n);
    GrewOne(w.before, w.c, w.before.nodes[w.n]);
  }

  /** A child's copy may be begun while the copy of what holds it is under way. */
  lemma {:induction false} KidStarts(w: Copier, dom: Dom, of: map<Id, Id>, i: nat, up: map<Id, Option<Id>>, depth: Depth, top: nat, next: Id)
    requires w.Copier? && Startable(w, up, depth, top) && Leads(up, depth) && Underway(w, dom, of, i) && i < |Kids(w.start, w.n)|
    ensures Startable(Copier(w.start, w.plain, dom, Kids(w.start, w.n)[i], next), up, depth, top)
    ensures depth(w.n) < depth(Kids(w.start, w.n)[i]) && depth(Kids(w.start, w.n)[i]) < top
    ensures Kids(w.start, w.n)[i] in dom.nodes && dom.nodes[Kids(w.start, w.n)[i]] == w.start.nodes[Kids(w.start, w.n)[i]]
  {
    KidIsDeeper(w.start, up, depth, w.n, i);
    assert Higher(depth, w.n, Kids(w.start, w.n)[i]);
    GrewTwice(w.start, w.before, dom);
  }

  lemma {:induction false} CopySkips(w: Copier, dom: Dom, of: map<Id, Id>, i: nat)
    requires Underway(w, dom, of, i) && i < |Kids(w.start, w.n)| && Kids(w.start, w.n)[i] !in w.plain
    ensures Underway(w, dom, of, i + 1)
  {
  }

  lemma {:induction false} GrewAdopts(before: Dom, dom: Dom, c: Id, cc: Id)
    requires Grew(before, dom) && New(before, dom, c) && New(before, dom, cc) && cc !in dom.parent
    ensures Grew(before, Adopted(dom, c, cc))
  {
    GrewOtherwise(before, dom, cc, NoId(dom.nodes[cc]));
    GrewPlaced(before, dom.(nodes := dom.nodes[cc := NoId(dom.nodes[cc])]), c, cc);
  }

  lemma {:induction false} KidsAdopted(dom: Dom, c: Id, cc: Id)
    requires cc in dom.nodes
    ensures forall q :: Kids(Adopted(dom, c, cc), q) == if q == c then Kids(dom, c) + [cc] else Kids(dom, q)
  {
  }

  lemma {:induction false} GrewAgain(before: Dom, was: Dom, dom: Dom, c: Id, cc: Id)
    requires Grew(before, was) && Grew(was, dom) && New(before, was, c) && New(was, dom, cc) && cc !in dom.parent && c !in was.parent && c < cc
    ensures Grew(before, Adopted(dom, c, cc)) && c !in Adopted(dom, c, cc).parent
  {
    GrewTwice(before, was, dom);
    GrewAdopts(before, dom, c, cc);
    assert !New(was, dom, c);
  }

  /** Once all children are done, the copy mirrors its like. */
  lemma {:induction false} CopyEnds(w: Copier, dom: Dom, of: map<Id, Id>)
    requires w.Copier? && Underway(w, dom, of, |Kids(w.start, w.n)|)
    ensures AllMirror(w.start, dom, w.plain, of, w.c) && Sound(dom)
  {
    forall y | y in of ensures Mirrors(w.start, dom, w.plain, of, w.c, y) {
      assert y != w.c ==> Mirrors(w.start, dom, w.plain, of, w.c, y);
    }
  }

  /** Copies made before and copies made later are copies together, once the root of the later ones has lost its id. */
  lemma {:induction false} CopiesJoin(start: Dom, was: Dom, dom: Dom, after: Dom, plain: set<Id>, of: map<Id, Id>, more: map<Id, Id>, c: Id, cc: Id)
    requires AllBut(start, was, plain, of, c) && AllMirror(start, dom, plain, more, cc) && cc in more && cc in dom.nodes && more[cc] in start.nodes
    requires Grew(was, dom) && of.Keys !! more.Keys && dom.nodes[cc] == start.nodes[more[cc]] && c !in more && cc !in was.nodes
    requires after.nodes == dom.nodes[cc := NoId(dom.nodes[cc])] && forall q :: q != c ==> Kids(after, q) == Kids(dom, q)
    ensures AllBut(start, after, plain, of + more, c)
  {
    forall y | y in of + more && y != c ensures Mirrors(start, after, plain, of + more, c, y) {
      if y in of {
        assert Mirrors(start, was, plain, of, c, y) && !New(was, dom, y);
      } else {
        assert Mirrors(start, dom, plain, more, cc, y);
      }
    }
  }

  lemma {:induction false} JoinStands(w: Copier, was: Dom, dom: Dom, of: map<Id, Id>, more: map<Id, Id>, cc: Id)
    requires w.Copier? && w.c < cc && Stands(w, was, of)
    requires Grew(was, dom) && New(was, dom, cc) && cc !in dom.parent
    requires dom.nodes.Keys == was.nodes.Keys + more.Keys && more.Keys !! was.nodes.Keys && forall y :: y in more ==> cc <= y
    ensures Stands(w, Adopted(dom, w.c, cc), of + more)
  {
    GrewAgain(w.before, was, dom, w.c, cc);
  }

  lemma {:induction false} JoinHolds(w: Copier, sub: Copier, was: Dom, dom: Dom, of: map<Id, Id>, more: map<Id, Id>, i: nat)
    requires w.Copier? && sub.Copier? && sub.before == was && sub.start == w.start && sub.plain == w.plain
    requires Stands(w, was, of) && Holds(w, was, of, i) && i < |Kids(w.start, w.n)| && sub.n == Kids(w.start, w.n)[i] && sub.n in w.plain
    requires Stands(sub, dom, more) && AllMirror(w.start, dom, w.plain, more, sub.c)
    ensures Holds(w, Adopted(dom, w.c, sub.c), of + more, i + 1)
  {
    KidsAdopted(dom, w.c, sub.c);
    CopiesJoin(w.start, was, dom, Adopted(dom, w.c, sub.c), w.plain, of, more, w.c, sub.c);
    assert !New(was, dom, w.c);
  }

  /** One more child copied. */
  lemma {:induction false} ChildJoins(w: Copier, sub: Copier, was: Dom, dom: Dom, of: map<Id, Id>, more: map<Id, Id>, i: nat)
    requires w.Copier? && sub.Copier? && w.c < sub.c && sub.before == was && sub.start == w.start && sub.plain == w.plain
    requires Underway(w, was, of, i) && i < |Kids(w.start, w.n)| && sub.n == Kids(w.start, w.n)[i] && sub.n in w.plain
    requires Underway(sub, dom, more, |Kids(sub.start, sub.n)|)
    ensures Underway(w, Adopted(dom, w.c, sub.c), of + more, i + 1)
  {
    CopyEnds(sub, dom, more);
    JoinStands(w, was, dom, of, more, sub.c);
    JoinHolds(w, sub, was, dom, of, more, i);
  }

  // ----- where nodes may hang -----

  /** Where a node may hang: one the page was parsed with where it did then, a new one below an earlier node. */
  ghost predicate HomeAt(up: map<Id, Option<Id>>, c: Id, p: Id) {
    if c in up then up[c] == Some(p) else p < c
  }

  ghost predicate AtHome(parent: map<Id, Id>, up: map<Id, Option<Id>>, c: Id) {
    c in parent ==> HomeAt(up, c, parent[c])
  }

  ghost predicate Homed(parent: map<Id, Id>, up: map<Id, Option<Id>>) {
    forall c {:trigger AtHome(parent, up, c)} :: AtHome(parent, up, c)
  }

  /** Links lead upwards: those the page was parsed with, and those of new nodes, which hang below earlier ones. */
  ghost predicate Leads(up: map<Id, Option<Id>>, depth: Depth) {
    && (forall c {:trigger Led(up, depth, c)} :: c in up ==> Led(up, depth, c))
    && forall p, c {:trigger Higher(depth, p, c)} :: p < c && c !in up ==> Higher(depth, p, c)
  }

  ghost predicate Led(up: map<Id, Option<Id>>, depth: Depth, c: Id)
    requires c in up
  {
    up[c].Some? ==> Higher(depth, up[c].value, c)
  }

  ghost predicate Higher(depth: Depth, p: Id, c: Id) {
    depth(p) < depth(c)
  }

  lemma {:induction false} KidIsDeeper(dom: Dom, up: map<Id, Option<Id>>, depth: Depth, n: Id, i: nat)
    requires Sound(dom) && Homed(dom.parent, up) && Leads(up, depth) && i < |Kids(dom, n)|
    ensures Kids(dom, n)[i] in dom.nodes && Higher(depth, n, Kids(dom, n)[i])
  {
    var k := Kids(dom, n)[i];
    assert n in dom.kids && k in dom.kids[n];
    assert AtHome(dom.parent, up, k);
    assert k in up ==> Led(up, depth, k);
  }

  /** Some depth is below all these nodes. */
  lemma {:induction false} Deepest(nodes: set<Id>, depth: Depth) returns (top: nat)
    ensures forall n :: n in nodes ==> depth(n) < top
  {
    if nodes == {} {
      top := 0;
    } else {
      var n :| n in nodes;
      top := Deepest(nodes - {n}, depth);
      top := if depth(n) < top then top else depth(n) + 1;
      forall m | m in nodes ensures depth(m) < top {
        assert m == n || m in nodes - {n};
      }
    }
  }
}
