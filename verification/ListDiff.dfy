/**
 Reconciling a list's rows in place (internal/dataapi/listdiff.go): unmatched rows leave the tree,
 matched rows stay the nodes they were, grown rows are deep copies, and everything is moved into order.
 */
module ListDiff {
  import opened PageTree
  import opened Sequences
  import opened Dom
  import opened Values
  import opened Rows
  import opened Clones

  /** The parents whose children change when these nodes go. */
  ghost function ParentsOf(dom: Dom, gone: set<Id>): set<Id> {
    set n | n in gone && n in dom.parent :: dom.parent[n]
  }

  ghost function Unmatched(rows: seq<Id>, used: set<nat>, upto: nat): set<Id>
    requires upto <= |rows|
  {
    set k | 0 <= k < upto && k !in used :: rows[k]
  }

  ghost predicate Untouched(before: Dom, after: Dom, q: Id) {
    q in before.nodes && q in after.nodes ==> after.nodes[q] == before.nodes[q] && Kids(after, q) == Kids(before, q)
  }

  /** Every node that was there is still known, and one whose data or children changed is marked. */
  ghost predicate Touches(before: Dom, after: Dom, marked: set<Id>) {
    before.nodes.Keys <= after.nodes.Keys && forall q {:trigger Untouched(before, after, q)} :: q !in marked ==> Untouched(before, after, q)
  }

  lemma {:induction false} TouchesMore(before: Dom, dom: Dom, after: Dom, marked: set<Id>, more: set<Id>)
    requires Touches(before, dom, marked) && Touches(dom, after, more) && marked <= more
    ensures Touches(before, after, more)
  {
    forall q | q !in more ensures Untouched(before, after, q) {
      assert Untouched(before, dom, q) && Untouched(dom, after, q);
    }
  }

  lemma {:induction false} InsertTouches(dom: Dom, tokens: string -> set<string>, p: Id, node: Id, index: nat, marked: set<Id>)
    requires Sound(dom) && node in dom.nodes && p in marked && (node in dom.parent ==> dom.parent[node] in marked)
    ensures Touches(dom, Inserted(dom, tokens, p, node, index), marked)
  {
    var anchor := AnchorFor(dom, tokens, p, index);
    if anchor != Some(node) {
      DetachedSound(dom, node);
      PlacedSound(Detached(dom, node), p, node, PlaceOf(Detached(dom, node), p, anchor));
    }
  }

  lemma {:induction false} GrewTouches(before: Dom, after: Dom, marked: set<Id>)
    requires Grew(before, after)
    ensures Touches(before, after, marked)
  {
  }

  lemma {:induction false} DetachTouches(dom: Dom, node: Id, marked: set<Id>)
    requires Sound(dom) && (node in dom.parent ==> dom.parent[node] in marked)
    ensures Touches(dom, Detached(dom, node), marked)
  {
    DetachedSound(dom, node);
  }

  /** What holds each node. */
  ghost function Hooks(dom: Dom): map<Id, Option<Id>> {
    map n | n in dom.nodes :: if n in dom.parent then Some(dom.parent[n]) else None
  }

  lemma {:induction false} DetachHomed(dom: Dom, node: Id, up: map<Id, Option<Id>>)
    requires Sound(dom) && Homed(dom.parent, up)
    ensures Homed(Detached(dom, node).parent, up)
  {
    forall c ensures AtHome(Detached(dom, node).parent, up, c) {
      assert AtHome(dom.parent, up, c);
    }
  }

  lemma {:induction false} PlaceHomed(dom: Dom, p: Id, node: Id, at: nat, up: map<Id, Option<Id>>)
    requires Homed(dom.parent, up) && at <= |Kids(dom, p)| && HomeAt(up, node, p)
    ensures Homed(Placed(dom, p, node, at).parent, up)
  {
    forall c ensures AtHome(Placed(dom, p, node, at).parent, up, c) {
      assert AtHome(dom.parent, up, c);
    }
  }

  lemma {:induction false} InsertHomed(dom: Dom, tokens: string -> set<string>, p: Id, node: Id, index: nat, up: map<Id, Option<Id>>)
    requires Sound(dom) && Homed(dom.parent, up) && HomeAt(up, node, p)
    ensures Homed(Inserted(dom, tokens, p, node, index).parent, up)
  {
    var after := Inserted(dom, tokens, p, node, index);
    forall c ensures AtHome(after.parent, up, c) {
      assert AtHome(dom.parent, up, c);
    }
  }

  /** What comes before `bound` is held by what comes before it too, and all that holds something comes before `next`. */
  ghost predicate Below(parent: map<Id, Id>, bound: nat, next: nat) {
    bound <= next && forall c :: c in parent ==> parent[c] < next && (parent[c] < bound || bound <= c)
  }

  lemma {:induction false} InsertBelow(dom: Dom, tokens: string -> set<string>, p: Id, node: Id, index: nat, bound: nat, next: nat)
    requires Sound(dom) && Below(dom.parent, bound, next) && p < bound
    ensures Below(Inserted(dom, tokens, p, node, index).parent, bound, next)
  {
  }

  lemma {:induction false} DetachBelow(dom: Dom, node: Id, bound: nat, next: nat)
    requires Sound(dom) && Below(dom.parent, bound, next)
    ensures Below(Detached(dom, node).parent, bound, next)
  {
  }

  /** What hangs below nodes from `bound` on is as it was. */
  ghost predicate Still(before: Dom, after: Dom, bound: nat) {
    forall q {:trigger Kids(after, q)} :: bound <= q ==> Kids(after, q) == Kids(before, q)
  }

  /** Rows that hang somewhere hang before `bound`. */
  ghost predicate Low(dom: Dom, rows: seq<Id>, bound: nat) {
    forall n :: n in rows && n in dom.parent ==> dom.parent[n] < bound
  }

  /** Some of what hung before `bound` hangs nowhere now; nothing hangs elsewhere than it did. */
  ghost predicate Pruned(before: Dom, after: Dom, bound: nat) {
    Still(before, after, bound) && forall c :: c in after.parent ==> c in before.parent && after.parent[c] == before.parent[c]
  }

  lemma {:induction false} PruneOne(before: Dom, dom: Dom, node: Id, bound: nat, rows: seq<Id>)
    requires Sound(dom) && Pruned(before, dom, bound) && Low(before, rows, bound) && node in rows
    ensures Pruned(before, Detached(dom, node), bound)
  {
    DetachedSound(dom, node);
  }

  lemma {:induction false} InsertStill(dom: Dom, tokens: string -> set<string>, p: Id, node: Id, index: nat, bound: nat, rows: seq<Id>)
    requires Sound(dom) && node in dom.nodes && p < bound && Low(dom, rows, bound) && node in rows
    ensures Still(dom, Inserted(dom, tokens, p, node, index), bound) && Low(Inserted(dom, tokens, p, node, index), rows, bound)
  {
    var anchor := AnchorFor(dom, tokens, p, index);
    if anchor != Some(node) {
      DetachedSound(dom, node);
      PlacedSound(Detached(dom, node), p, node, PlaceOf(Detached(dom, node), p, anchor));
    }
  }

  /** Everything in `gone` is off the tree, and the parents it had are marked. */
  ghost predicate Removed(before: Dom, dom: Dom, marked: set<Id>, dirty: set<Id>, gone: set<Id>) {
    Dropped(before, dom, gone) && dirty == marked + ParentsOf(before, gone)
  }

  lemma {:induction false} NothingRemoved(dom: Dom, dirty: set<Id>, rows: seq<Id>, used: set<nat>)
    requires Sound(dom)
    ensures Removed(dom, dom, dirty, dirty, Unmatched(rows, used, 0))
  {
    NothingDropped(dom);
    assert Unmatched(rows, used, 0) == {};
    assert ParentsOf(dom, {}) == {};
  }

  lemma {:induction false} RemoveNext(before: Dom, dom: Dom, marked: set<Id>, dirty: set<Id>, rows: seq<Id>, used: set<nat>, i: nat)
    requires i < |rows| && Removed(before, dom, marked, dirty, Unmatched(rows, used, i))
    ensures
      if i in used then Removed(before, dom, marked, dirty, Unmatched(rows, used, i + 1))
      else Removed(before, Detached(dom, rows[i]), marked, dirty + ParentsOf(dom, {rows[i]}), Unmatched(rows, used, i + 1))
  {
    var gone := Unmatched(rows, used, i);
    if i in used {
      assert Unmatched(rows, used, i + 1) == gone;
    } else {
      DropOne(before, dom, gone, rows[i]);
      assert Unmatched(rows, used, i + 1) == gone + {rows[i]};
      assert dirty + ParentsOf(dom, {rows[i]}) == marked + ParentsOf(before, gone + {rows[i]});
    }
  }

  /** The first `i` rows are in place; `line` is what that makes the counted children. */
  ghost predicate RunStanding(run: Run, dom: Dom, tokens: string -> set<string>, p: Id, rows: seq<Id>, i: nat, anchorIdx: nat, line: seq<Id>) {
    match run
    case Unknown => false
    case Run(_, prefix, rest, suffix) =>
      && i <= |rows| && |prefix| == anchorIdx
      && Sortable(run, tokens, p, rows)
      && IsLine(run, rows, i, line)
      && Placing(run, dom, tokens, p, rows, line)
  }

  /** One more row, left alone where it is in place. */
  lemma {:induction false} RunStays(run: Run, dom: Dom, tokens: string -> set<string>, p: Id, rows: seq<Id>, i: nat, anchorIdx: nat, line: seq<Id>)
    requires i < |rows| && RunStanding(run, dom, tokens, p, rows, i, anchorIdx, line)
    requires IndexOf(line, rows[i]) == anchorIdx + i
    ensures RunStanding(run, dom, tokens, p, rows, i + 1, anchorIdx, line)
  {
    KeptDistinct(Kids(dom, p), Shown(dom, tokens));
    RowFits(run, tokens, p, rows, i, line);
    LineGoesOn(run, tokens, p, rows, i, line);
  }

  /** One more row can be moved to its place. */
  lemma {:induction false} RunCanGoOn(run: Run, dom: Dom, tokens: string -> set<string>, p: Id, rows: seq<Id>, i: nat, anchorIdx: nat, line: seq<Id>)
    requires i < |rows| && RunStanding(run, dom, tokens, p, rows, i, anchorIdx, line)
    requires IndexOf(line, rows[i]) != anchorIdx + i
    ensures CanLand(dom, tokens, p, rows[i], anchorIdx + i)
  {
    assert rows[i] in rows;
    KeptDistinct(Kids(dom, p), Shown(dom, tokens));
    RowFits(run, tokens, p, rows, i, line);
  }

  lemma {:induction false} RowIsUnder(run: Run, dom: Dom, tokens: string -> set<string>, p: Id, rows: seq<Id>, i: nat, anchorIdx: nat, line: seq<Id>)
    requires i < |rows| && RunStanding(run, dom, tokens, p, rows, i, anchorIdx, line)
    ensures ParentsOf(dom, {rows[i]}) <= {p}
  {
    assert rows[i] in rows;
  }

  lemma {:induction false} RunGoesOn(run: Run, dom: Dom, after: Dom, tokens: string -> set<string>, p: Id, rows: seq<Id>, i: nat, anchorIdx: nat, line: seq<Id>)
    requires i < |rows| && RunStanding(run, dom, tokens, p, rows, i, anchorIdx, line)
    requires Landed(dom, after, tokens, p, rows[i], anchorIdx + i)
    ensures RunStanding(run, after, tokens, p, rows, i + 1, anchorIdx, Shifted(line, rows[i], anchorIdx + i))
  {
    RunLine(run, dom, tokens, p, rows, i, anchorIdx, line);
    RunMoved(run, dom, after, tokens, p, rows, i, anchorIdx, line);
  }

  lemma {:induction false} RunLine(run: Run, dom: Dom, tokens: string -> set<string>, p: Id, rows: seq<Id>, i: nat, anchorIdx: nat, line: seq<Id>)
    requires i < |rows| && RunStanding(run, dom, tokens, p, rows, i, anchorIdx, line)
    ensures IsLine(run, rows, i + 1, Shifted(line, rows[i], anchorIdx + i))
  {
    LineGoesOn(run, tokens, p, rows, i, line);
  }

  lemma {:induction false} RunMoved(run: Run, dom: Dom, after: Dom, tokens: string -> set<string>, p: Id, rows: seq<Id>, i: nat, anchorIdx: nat, line: seq<Id>)
    requires i < |rows| && RunStanding(run, dom, tokens, p, rows, i, anchorIdx, line)
    requires Landed(dom, after, tokens, p, rows[i], anchorIdx + i)
    ensures Placing(run, after, tokens, p, rows, Shifted(line, rows[i], anchorIdx + i))
  {
    assert rows[i] in rows;
    RowMoves(run, dom, after, tokens, p, rows, line, rows[i], anchorIdx + i);
  }

  lemma {:induction false} RunInOrder(run: Run, dom: Dom, tokens: string -> set<string>, p: Id, rows: seq<Id>, i: nat, anchorIdx: nat, line: seq<Id>)
    requires i < |rows| && run.Run? && run.rest == rows && RunStanding(run, dom, tokens, p, rows, 0, anchorIdx, line)
    ensures IndexOf(line, rows[i]) == anchorIdx + i
  {
    KeptDistinct(Kids(dom, p), Shown(dom, tokens));
    NothingToPlace(run, rows, i, line);
  }

  lemma {:induction false} ByIndices(dom: Dom, tokens: string -> set<string>, rows: seq<Id>, indices: Option<seq<int>>)
    requires Sound(dom) && AreRows(dom, tokens, rows) && |rows| > 1
    requires var siblings := ContentChildren(dom, tokens, dom.parent[rows[0]]);
      if indices.None? then exists h :: 0 <= h < |rows| && rows[h] !in siblings
      else |indices.value| == |rows| && forall h :: 0 <= h < |rows| ==> indices.value[h] == IndexOf(siblings, rows[h]) >= 0
    ensures Contiguous(dom, tokens, rows) == (indices.Some? && indices.value[|rows| - 1] - indices.value[0] == |rows| - 1)
  {
    if indices.None? {
      NotARun(dom, tokens, rows);
    } else {
      RunWhenTight(dom, tokens, rows, indices.value);
    }
  }

  /** Rows on their way into a tree: those in `grown` hang nowhere yet. */
  datatype Growth = NoGrowth | Growth(before: Dom, rows: seq<Id>, grown: set<Id>)

  ghost predicate Growable(g: Growth, tokens: string -> set<string>) {
    match g
    case NoGrowth => false
    case Growth(before, rows, _) => NoRepeats(rows) && forall n :: n in rows ==> n in Shown(before, tokens)
  }

  /** The grown rows among the first `i` each stand behind the row before them; nothing else is different. */
  ghost predicate Growing(g: Growth, dom: Dom, tokens: string -> set<string>, i: nat) {
    match g
    case NoGrowth => false
    case Growth(before, rows, grown) =>
      i <= |rows| && OnlyGrown(before, dom, tokens, grown) && Hung(dom, rows, grown, i) && Strung(dom, tokens, rows, grown, i)
  }

  /** The next grown row goes behind the row before it, the first one anywhere. */
  ghost predicate GrowsAt(g: Growth, dom: Dom, tokens: string -> set<string>, i: nat, p: Id, at: nat) {
    match g
    case NoGrowth => false
    case Growth(_, rows, grown) =>
      && i < |rows| && rows[i] in grown
      && if i == 0 then at <= |ContentChildren(dom, tokens, p)|
         else
           && rows[i - 1] in dom.parent && p == dom.parent[rows[i - 1]]
           && at == IndexOf(ContentChildren(dom, tokens, p), rows[i - 1]) + 1
  }

  lemma {:induction false} GrowLands(g: Growth, dom: Dom, tokens: string -> set<string>, i: nat, p: Id, at: nat)
    requires Growable(g, tokens) && Growing(g, dom, tokens, i) && GrowsAt(g, dom, tokens, i, p, at)
    ensures g.rows[i] in Shown(dom, tokens) && g.rows[i] !in dom.parent
    ensures at <= |ContentChildren(dom, tokens, p)| && CanLand(dom, tokens, p, g.rows[i], at)
  {
    assert g.rows[i] in g.rows;
    if i > 0 {
      assert g.rows[i - 1] in g.rows;
      RowIsCounted(dom, tokens, g.rows[i - 1]);
    }
    GrownLands(dom, tokens, p, g.rows[i], at);
  }

  lemma {:induction false} GrowNext(g: Growth, dom: Dom, after: Dom, tokens: string -> set<string>, i: nat, p: Id, at: nat)
    requires Growable(g, tokens) && Growing(g, dom, tokens, i) && GrowsAt(g, dom, tokens, i, p, at)
    requires Landed(dom, after, tokens, p, g.rows[i], at)
    ensures Growing(g, after, tokens, i + 1)
  {
    GrowLands(g, dom, tokens, i, p, at);
    OneGrown(g.before, dom, after, tokens, g.grown, p, g.rows[i], at);
    HangOne(dom, after, tokens, g.rows, g.grown, i, p);
    GrowStrings(g, dom, after, tokens, i, p, at);
  }

  lemma {:induction false} GrowStrings(g: Growth, dom: Dom, after: Dom, tokens: string -> set<string>, i: nat, p: Id, at: nat)
    requires Growable(g, tokens) && Growing(g, dom, tokens, i) && GrowsAt(g, dom, tokens, i, p, at)
    requires Landed(dom, after, tokens, p, g.rows[i], at)
    ensures Strung(after, tokens, g.rows, g.grown, i + 1)
  {
    GrowLands(g, dom, tokens, i, p, at);
    GrownLands(dom, tokens, p, g.rows[i], at);
    if i > 0 {
      assert g.rows[i - 1] in g.rows;
      RowIsCounted(dom, tokens, g.rows[i - 1]);
      StringNext(dom, after, tokens, g.rows, g.grown, i, p, at - 1);
    }
  }

  lemma {:induction false} GrowOver(g: Growth, dom: Dom, tokens: string -> set<string>, i: nat)
    requires g.Growth? && i < |g.rows| && g.rows[i] !in g.grown && Growing(g, dom, tokens, i)
    ensures Growing(g, dom, tokens, i + 1)
  {
    StringOver(dom, tokens, g.rows, g.grown, i);
  }

  lemma {:induction false} InsertedDoes(dom: Dom, tokens: string -> set<string>, p: Id, n: Id, index: nat)
    requires Sound(dom) && n in dom.nodes
    ensures var after := Inserted(dom, tokens, p, n, index);
      && Sound(after) && after.nodes == dom.nodes
      && (CanLand(dom, tokens, p, n, index) ==> Landed(dom, after, tokens, p, n, index))
  {
    DetachedSound(dom, n);
    var off, anchor := Detached(dom, n), AnchorFor(dom, tokens, p, index);
    PlacedSound(off, p, n, PlaceOf(off, p, anchor));
    if CanLand(dom, tokens, p, n, index) {
      InsertedShows(dom, tokens, p, n, index);
    }
  }

  /** The rows as the new items want them: matched ones are the nodes they were, the others are new. */
  ghost predicate Made(before: Dom, after: Dom, tokens: string -> set<string>, oldNodes: seq<Id>, matches: seq<int>, rows: seq<Id>) {
    && Grew(before, after) && |rows| <= |matches| && NoRepeats(rows)
    && forall i :: 0 <= i < |rows| ==>
         if 0 <= matches[i] < |oldNodes| then rows[i] == oldNodes[matches[i]]
         else rows[i] !in before.nodes && rows[i] in Shown(after, tokens) && rows[i] !in after.parent
  }

  lemma {:induction false} MadeMore(before: Dom, dom: Dom, after: Dom, tokens: string -> set<string>, oldNodes: seq<Id>, matches: seq<int>, rows: seq<Id>)
    requires Made(before, dom, tokens, oldNodes, matches, rows) && Grew(dom, after)
    ensures Made(before, after, tokens, oldNodes, matches, rows)
  {
    GrewTwice(before, dom, after);
    forall i | 0 <= i < |rows| && !(0 <= matches[i] < |oldNodes|)
      ensures rows[i] !in before.nodes && rows[i] in Shown(after, tokens) && rows[i] !in after.parent
    {
      assert rows[i] in Shown(dom, tokens);
    }
  }

  lemma {:induction false} NewRow(before: Dom, dom: Dom, tokens: string -> set<string>, oldNodes: seq<Id>, matches: seq<int>, rows: seq<Id>, c: Id)
    requires Made(before, dom, tokens, oldNodes, matches, rows) && |rows| < |matches| && !(0 <= matches[|rows|] < |oldNodes|)
    requires c !in before.nodes && c !in rows && c in Shown(dom, tokens) && c !in dom.parent
    ensures Made(before, dom, tokens, oldNodes, matches, rows + [c])
  {
  }

  lemma {:induction false} KeptRow(before: Dom, dom: Dom, tokens: string -> set<string>, oldNodes: seq<Id>, matches: seq<int>, rows: seq<Id>)
    requires Made(before, dom, tokens, oldNodes, matches, rows) && |rows| < |matches| && 0 <= matches[|rows|] < |oldNodes|
    requires NoRepeats(oldNodes) && (forall n :: n in oldNodes ==> n in before.nodes)
    requires forall i, j :: 0 <= i < j < |matches| && matches[i] >= 0 ==> matches[i] != matches[j]
    ensures Made(before, dom, tokens, oldNodes, matches, rows + [oldNodes[matches[|rows|]]])
  {
  }

  // ----- the whole reconciliation -----

  /**
   The rows stand where the old ones stood, between the same neighbours; the text, comments and
   no-data elements around them keep their order, and the children of no other node that was there change.
   */
  ghost predicate Reconciled(before: Dom, after: Dom, tokens: string -> set<string>, p: Id, oldNodes: seq<Id>, rows: seq<Id>, a: nat) {
    var v := ContentChildren(before, tokens, p);
    && IsRun(before, tokens, p, oldNodes, a)
    && ContentChildren(after, tokens, p) == v[..a] + rows + v[a + |oldNodes|..]
    && Others(after, tokens, p) == Others(before, tokens, p)
    && forall q {:trigger Kids(after, q)} :: q != p && !New(before, after, q) ==> Kids(after, q) == Kids(before, q)
  }

  lemma {:induction false} RunSplits(v: seq<Id>, rows: seq<Id>, a: nat)
    requires a + |rows| <= |v| && v[a..a + |rows|] == rows
    ensures v == v[..a] + (rows + v[a + |rows|..])
  {
  }

  lemma {:induction false} RunSurvives(prefix: seq<Id>, rows: seq<Id>, suffix: seq<Id>, stay: set<Id>)
    requires NoRepeats(prefix + (rows + suffix))
    requires forall x :: (x in prefix || x in suffix) && x !in stay ==> x in rows
    ensures Kept(prefix + (rows + suffix), stay) == prefix + (Kept(rows, stay) + suffix)
    ensures forall x :: x in rows ==> x !in prefix && x !in suffix
    ensures NoRepeats(rows)
  {
    Separate(prefix, rows, suffix);
    KeptConcat(prefix, rows + suffix, stay);
    KeptConcat(rows, suffix, stay);
    KeptAll(prefix, stay);
    KeptAll(suffix, stay);
  }

  lemma {:induction false} Separate(prefix: seq<Id>, rows: seq<Id>, suffix: seq<Id>)
    requires NoRepeats(prefix + (rows + suffix))
    ensures forall x :: x in rows ==> x !in prefix && x !in suffix
    ensures NoRepeats(rows)
  {
    var v := prefix + (rows + suffix);
    assert forall k :: 0 <= k < |rows| ==> rows[k] == v[|prefix| + k];
    assert forall k :: 0 <= k < |suffix| ==> suffix[k] == v[|prefix| + |rows| + k];
    assert forall k :: 0 <= k < |prefix| ==> prefix[k] == v[k];
  }

  /** What a removal leaves between the neighbours of a run, and how it is put in order. */
  ghost function RunOver(before: Dom, after: Dom, tokens: string -> set<string>, p: Id, oldNodes: seq<Id>, gone: set<Id>, a: nat): Run {
    var v := ContentChildren(before, tokens, p);
    if a + |oldNodes| <= |v| then Run(after, v[..a], Kept(oldNodes, before.nodes.Keys - gone), v[a + |oldNodes|..])
    else Unknown
  }

  /** Rows to be: old ones that were not removed, and new ones that hang nowhere. */
  ghost predicate RowsToBe(dom: Dom, tokens: string -> set<string>, oldNodes: seq<Id>, gone: set<Id>, rows: seq<Id>) {
    && NoRepeats(rows)
    && (forall n :: n in rows ==> n in Shown(dom, tokens) && if n in oldNodes then n !in gone else n !in dom.parent)
    && (forall n :: n in oldNodes && n !in gone ==> n in rows)
    && (forall n :: n in gone ==> n in oldNodes && n in Shown(dom, tokens))
  }

  lemma {:induction false} RunApart(before: Dom, tokens: string -> set<string>, p: Id, oldNodes: seq<Id>, gone: set<Id>, rows: seq<Id>, prefix: seq<Id>, suffix: seq<Id>)
    requires Sound(before) && RowsToBe(before, tokens, oldNodes, gone, rows)
    requires ContentChildren(before, tokens, p) == prefix + (oldNodes + suffix)
    ensures var stay := before.nodes.Keys - gone;
      && Kept(prefix + (oldNodes + suffix), stay) == prefix + (Kept(oldNodes, stay) + suffix)
      && NoRepeats(Kept(oldNodes, stay)) && (forall x :: x in Kept(oldNodes, stay) ==> x in rows)
    ensures forall n :: n in rows ==> n !in prefix && n !in suffix
  {
    var v, stay := ContentChildren(before, tokens, p), before.nodes.Keys - gone;
    KeptMembers(Kids(before, p), Shown(before, tokens));
    KeptDistinct(Kids(before, p), Shown(before, tokens));
    assert forall x :: x in prefix || x in suffix ==> x in v;
    RunSurvives(prefix, oldNodes, suffix, stay);
    KeptMembers(oldNodes, stay);
    KeptDistinct(oldNodes, stay);
    forall n | n in rows ensures n !in prefix && n !in suffix {
      if n !in oldNodes {
        assert n !in Kids(before, p);
      }
    }
  }

  lemma {:induction false} ReadyToPlace(before: Dom, dom: Dom, tokens: string -> set<string>, p: Id, oldNodes: seq<Id>, gone: set<Id>, rows: seq<Id>, a: nat) returns (line: seq<Id>)
    requires Sound(before) && IsRun(before, tokens, p, oldNodes, a)
    requires Dropped(before, dom, gone) && RowsToBe(before, tokens, oldNodes, gone, rows)
    ensures RunStanding(RunOver(before, dom, tokens, p, oldNodes, gone, a), dom, tokens, p, rows, 0, a, line)
  {
    var run := RunOver(before, dom, tokens, p, oldNodes, gone, a);
    RunSplits(ContentChildren(before, tokens, p), oldNodes, a);
    RunApart(before, tokens, p, oldNodes, gone, rows, run.prefix, run.suffix);
    RunIsInside(before, tokens, p, oldNodes, a);
    DroppedShows(before, dom, tokens, gone, p);
    line := ContentChildren(dom, tokens, p);
    RunSortable(run, before, dom, tokens, p, oldNodes, gone, rows);
    LineStarts(run, tokens, p, rows);
  }

  lemma {:induction false} RunSortable(run: Run, before: Dom, dom: Dom, tokens: string -> set<string>, p: Id, oldNodes: seq<Id>, gone: set<Id>, rows: seq<Id>)
    requires Dropped(before, dom, gone) && RowsToBe(before, tokens, oldNodes, gone, rows)
    requires forall n :: n in oldNodes ==> n in before.parent && before.parent[n] == p
    requires run.Run? && run.before == dom && NoRepeats(run.rest) && forall x :: x in run.rest ==> x in rows
    requires forall n :: n in rows ==> n !in run.prefix && n !in run.suffix
    ensures Sortable(run, tokens, p, rows)
  {
  }

  function Used(matches: seq<int>): set<nat> {
    set i | 0 <= i < |matches| && matches[i] >= 0 :: matches[i]
  }

  lemma {:induction false} MadeRowsToBe(before: Dom, dom: Dom, tokens: string -> set<string>, oldNodes: seq<Id>, matches: seq<int>, rows: seq<Id>)
    requires Sound(before) && AreRows(before, tokens, oldNodes)
    requires Made(before, dom, tokens, oldNodes, matches, rows) && |rows| == |matches|
    requires forall i :: 0 <= i < |matches| ==> matches[i] < |oldNodes|
    ensures RowsToBe(dom, tokens, oldNodes, Unmatched(oldNodes, Used(matches), |oldNodes|), rows)
  {
    var gone := Unmatched(oldNodes, Used(matches), |oldNodes|);
    forall n | n in rows ensures n in Shown(dom, tokens) && if n in oldNodes then n !in gone else n !in dom.parent {
      var i :| 0 <= i < |rows| && rows[i] == n;
      if matches[i] >= 0 {
        assert matches[i] in Used(matches);
        assert oldNodes[matches[i]] in Shown(before, tokens);
      }
    }
    forall n | n in oldNodes && n !in gone ensures n in rows {
      var k :| 0 <= k < |oldNodes| && oldNodes[k] == n;
      assert k in Used(matches);
      var i :| 0 <= i < |matches| && matches[i] == k;
      assert rows[i] == n;
    }
    forall n | n in gone ensures n in oldNodes && n in Shown(dom, tokens) {
      assert n in Shown(before, tokens);
    }
  }

  lemma {:induction false} RowGrew(before: Dom, dom: Dom, tokens: string -> set<string>, n: Id)
    requires Sound(before) && Grew(before, dom) && n in Shown(before, tokens) && n in before.parent
    ensures n in Shown(dom, tokens) && n in dom.parent && dom.parent[n] == before.parent[n] && Position(dom, tokens, n) == Position(before, tokens, n)
    ensures ContentChildren(dom, tokens, dom.parent[n]) == ContentChildren(before, tokens, before.parent[n])
  {
    GrewShows(before, dom, tokens, before.parent[n]);
  }

  lemma {:induction false} RowsGrew(before: Dom, dom: Dom, tokens: string -> set<string>, rows: seq<Id>)
    requires Sound(before) && Grew(before, dom) && AreRows(before, tokens, rows)
    ensures AreRows(dom, tokens, rows) && Contiguous(dom, tokens, rows) == Contiguous(before, tokens, rows)
  {
    forall i | 0 <= i < |rows|
      ensures rows[i] in Shown(dom, tokens) && rows[i] in dom.parent && dom.parent[rows[i]] == before.parent[rows[i]]
      ensures Position(dom, tokens, rows[i]) == Position(before, tokens, rows[i])
      ensures ContentChildren(dom, tokens, dom.parent[rows[i]]) == ContentChildren(before, tokens, before.parent[rows[i]])
    {
      RowGrew(before, dom, tokens, rows[i]);
    }
  }

  /** Once every row is in place, the list has been reconciled. */
  lemma {:induction false} PlacedReconciles(before: Dom, grew: Dom, dropped: Dom, after: Dom, tokens: string -> set<string>, p: Id, oldNodes: seq<Id>, gone: set<Id>, rows: seq<Id>, a: nat)
    requires Sound(before) && Grew(before, grew) && Dropped(grew, dropped, gone) && !New(before, grew, p)
    requires IsRun(grew, tokens, p, oldNodes, a) && RowsToBe(grew, tokens, oldNodes, gone, rows)
    requires var run := RunOver(grew, dropped, tokens, p, oldNodes, gone, a);
      run.Run? && Placing(run, after, tokens, p, rows, run.prefix + rows + run.suffix)
    ensures Reconciled(before, after, tokens, p, oldNodes, rows, a)
  {
    GrewShows(before, grew, tokens, p);
    DroppedShows(grew, dropped, tokens, gone, p);
    KidsElsewhere(before, grew, dropped, after, tokens, p, oldNodes, gone, a);
  }

  lemma {:induction false} KidsElsewhere(before: Dom, grew: Dom, dropped: Dom, after: Dom, tokens: string -> set<string>, p: Id, oldNodes: seq<Id>, gone: set<Id>, a: nat)
    requires Sound(grew) && Grew(before, grew) && Dropped(grew, dropped, gone)
    requires IsRun(grew, tokens, p, oldNodes, a) && forall n :: n in gone ==> n in oldNodes
    requires after.nodes == grew.nodes && forall q :: q != p ==> Kids(after, q) == Kids(dropped, q)
    ensures forall q :: q != p && !New(before, after, q) ==> Kids(after, q) == Kids(before, q)
  {
    RunIsInside(grew, tokens, p, oldNodes, a);
    forall q | q != p && !New(before, after, q) ensures Kids(after, q) == Kids(before, q) {
      ElsewhereUntouched(before, grew, dropped, after, gone, p, q);
    }
  }

  lemma {:induction false} ElsewhereUntouched(before: Dom, grew: Dom, dropped: Dom, after: Dom, gone: set<Id>, p: Id, q: Id)
    requires Sound(grew) && Grew(before, grew) && Dropped(grew, dropped, gone)
    requires q != p && !New(before, grew, q) && forall n :: n in gone ==> n in grew.parent && grew.parent[n] == p
    requires Kids(after, q) == Kids(dropped, q)
    ensures Kids(after, q) == Kids(before, q)
  {
    DroppedElsewhere(grew, gone, p, q);
  }

  lemma {:induction false} DroppedElsewhere(dom: Dom, gone: set<Id>, p: Id, q: Id)
    requires Sound(dom) && p != q && forall n :: n in gone ==> n in dom.parent && dom.parent[n] == p
    ensures Kept(Kids(dom, q), dom.nodes.Keys - gone) == Kids(dom, q)
  {
    KeptAll(Kids(dom, q), dom.nodes.Keys - gone);
  }

  /**
   Nothing of the old order is lost among the rows that stay, and every grown row stands right
   behind the row before it in the list.
   */
  ghost predicate Grown(before: Dom, after: Dom, tokens: string -> set<string>, gone: set<Id>, rows: seq<Id>, grown: set<Id>) {
    && (forall q {:trigger LessAndMore(before, after, tokens, gone, grown, q)} :: !New(before, after, q) ==> LessAndMore(before, after, tokens, gone, grown, q))
    && Strung(after, tokens, rows, grown, |rows|)
  }

  ghost predicate LessAndMore(before: Dom, after: Dom, tokens: string -> set<string>, gone: set<Id>, grown: set<Id>, q: Id) {
    && Kept(ContentChildren(after, tokens, q), after.nodes.Keys - grown) == Kept(ContentChildren(before, tokens, q), before.nodes.Keys - gone)
    && Others(after, tokens, q) == Others(before, tokens, q)
  }

  ghost function NewAmong(before: Dom, rows: seq<Id>): set<Id> {
    set n | n in rows && n !in before.nodes
  }

  lemma {:induction false} GrownReconciles(before: Dom, grew: Dom, dropped: Dom, after: Dom, tokens: string -> set<string>, gone: set<Id>, g: Growth)
    requires Sound(before) && Grew(before, grew) && Dropped(grew, dropped, gone) && gone <= Shown(grew, tokens) && g.Growth?
    requires g.before == dropped && Growing(g, after, tokens, |g.rows|)
    ensures Grown(before, after, tokens, gone, g.rows, g.grown)
  {
    forall q | !New(before, after, q) ensures LessAndMore(before, after, tokens, gone, g.grown, q) {
      assert SameButGrown(dropped, after, tokens, g.grown, q);
      GrewShows(before, grew, tokens, q);
      DroppedShows(grew, dropped, tokens, gone, q);
      KeptMembers(Kids(before, q), Shown(before, tokens));
      KeptAgree(ContentChildren(before, tokens, q), before.nodes.Keys - gone, grew.nodes.Keys - gone);
    }
  }

  lemma {:induction false} ReadyToGrow(before: Dom, grew: Dom, dom: Dom, tokens: string -> set<string>, oldNodes: seq<Id>, gone: set<Id>, rows: seq<Id>)
    requires Sound(before) && Grew(before, grew) && Dropped(grew, dom, gone)
    requires AreRows(before, tokens, oldNodes) && RowsToBe(grew, tokens, oldNodes, gone, rows)
    requires forall n :: n in rows ==> (n in oldNodes <==> n in before.nodes)
    ensures var g := Growth(dom, rows, NewAmong(before, rows)); Growable(g, tokens) && Growing(g, dom, tokens, 0)
  {
    NothingGrown(dom, tokens, NewAmong(before, rows));
  }

  lemma {:induction false} FirstIsFirst(dom: Dom, tokens: string -> set<string>, rows: seq<Id>, k: nat)
    requires Sound(dom) && AreRows(dom, tokens, rows) && k < |rows|
    ensures var v, a := ContentChildren(dom, tokens, dom.parent[rows[0]]), Position(dom, tokens, rows[0]);
      0 <= a <= |v| && rows[k] !in v[..a]
  {
    var p := dom.parent[rows[0]];
    var v, a := ContentChildren(dom, tokens, p), Position(dom, tokens, rows[0]);
    RowIsCounted(dom, tokens, rows[0]);
    KeptMembers(Kids(dom, p), Shown(dom, tokens));
    if k > 0 && rows[k] in v {
      var i := Position(dom, tokens, rows[k]);
      assert a < i && rows[k] !in v[..i];
      assert v[..a] == v[..i][..a];
    }
  }

  /** What stands before the first row stays before it. */
  lemma {:induction false} StartsNoLater(grew: Dom, dom: Dom, tokens: string -> set<string>, oldNodes: seq<Id>, gone: set<Id>)
    requires Sound(grew) && AreRows(grew, tokens, oldNodes) && oldNodes != []
    requires Dropped(grew, dom, gone) && forall n :: n in gone ==> n in oldNodes && n in Shown(grew, tokens)
    ensures 0 <= Position(grew, tokens, oldNodes[0]) <= |ContentChildren(dom, tokens, grew.parent[oldNodes[0]])|
  {
    var p, a, stay := grew.parent[oldNodes[0]], Position(grew, tokens, oldNodes[0]), grew.nodes.Keys - gone;
    var v := ContentChildren(grew, tokens, p);
    forall k | 0 <= k < |oldNodes| ensures 0 <= a <= |v| && oldNodes[k] !in v[..a] {
      FirstIsFirst(grew, tokens, oldNodes, k);
    }
    var before, after := v[..a], v[a..];
    assert v == before + after;
    KeptMembers(Kids(grew, p), Shown(grew, tokens));
    assert forall x :: x in before ==> x in v;
    KeptAll(before, stay);
    KeptConcat(before, after, stay);
    DroppedShows(grew, dom, tokens, gone, p);
  }

  /** Where a list starts: at its first row, or as the first child of what holds the seed. */
  ghost predicate StartsAt(dom: Dom, tokens: string -> set<string>, oldNodes: seq<Id>, seed: Id, p: Id, a: nat) {
    if oldNodes == [] then seed in dom.parent && p == dom.parent[seed] && a == 0
    else oldNodes[0] in dom.parent && p == dom.parent[oldNodes[0]] && a == Position(dom, tokens, oldNodes[0])
  }

  lemma {:induction false} StartsThere(before: Dom, grew: Dom, tokens: string -> set<string>, oldNodes: seq<Id>, seed: Id, p: Id, a: nat)
    requires Sound(before) && Grew(before, grew) && StartsAt(grew, tokens, oldNodes, seed, p, a)
    requires if oldNodes == [] then seed in before.nodes else oldNodes[0] in before.nodes
    ensures StartsAt(before, tokens, oldNodes, seed, p, a) && !New(before, grew, p)
  {
    GrewShows(before, grew, tokens, p);
  }

  /** What a reconciliation without refused removals achieves. */
  ghost predicate Settled(before: Dom, after: Dom, tokens: string -> set<string>, oldNodes: seq<Id>, seed: Id, matches: seq<int>, rows: seq<Id>)
    requires AreRows(before, tokens, oldNodes)
  {
    if Contiguous(before, tokens, oldNodes) then
      exists p, a :: StartsAt(before, tokens, oldNodes, seed, p, a) && Reconciled(before, after, tokens, p, oldNodes, rows, a)
    else Grown(before, after, tokens, Unmatched(oldNodes, Used(matches), |oldNodes|), rows, NewAmong(before, rows))
  }

  /** Each row without a match is a copy of the template, without ids. */
  ghost predicate CopiesOf(there: set<Id>, dom: Dom, tokens: string -> set<string>, template: Id, matches: seq<int>, rows: seq<Id>) {
    |rows| <= |matches| && forall i :: 0 <= i < |rows| && matches[i] < 0 ==> IsRowOf(there, dom, tokens, template, rows[i])
  }

  ghost predicate IsRowOf(there: set<Id>, dom: Dom, tokens: string -> set<string>, template: Id, c: Id) {
    && c in dom.nodes && template in dom.nodes && dom.nodes[c] == StripId(dom.nodes[template])
    && IsCopy(there, dom, dom, tokens, template, c)
  }

  /** The template is a copy of the first row, or of the seed, without ids and mark. */
  ghost predicate IsTemplateOf(before: Dom, dom: Dom, tokens: string -> set<string>, source: Id, template: Id) {
    && source in before.nodes && template in dom.nodes && dom.nodes[template] == StripId(StripSeedMark(before.nodes[source]))
    && IsCopy(before.nodes.Keys, before, dom, tokens, source, template)
  }

  /** Grown rows look like the first row, or like the seed, with all it holds, but for what opted out, ids and the mark. */
  ghost predicate Copies(before: Dom, grew: Dom, tokens: string -> set<string>, oldNodes: seq<Id>, seed: Id, matches: seq<int>, rows: seq<Id>) {
    (exists i :: 0 <= i < |matches| && matches[i] < 0) ==>
      exists template :: CopiedFrom(before, grew, tokens, Source(oldNodes, seed), template, matches, rows)
  }

  /** The rows were made as copies, and what they hold is as it was made. */
  ghost predicate Copied(before: Dom, after: Dom, tokens: string -> set<string>, oldNodes: seq<Id>, seed: Id, matches: seq<int>, rows: seq<Id>) {
    exists grew: Dom :: Grew(before, grew) && Copies(before, grew, tokens, oldNodes, seed, matches, rows) && AsMade(before, grew, after)
  }

  ghost predicate AsMade(before: Dom, grew: Dom, after: Dom) {
    after.nodes == grew.nodes && forall q {:trigger Kids(after, q)} :: New(before, grew, q) ==> Kids(after, q) == Kids(grew, q)
  }

  /** What was made is numbered from `first` on. */
  ghost predicate MadeFrom(before: Dom, after: Dom, first: nat) {
    forall y :: New(before, after, y) ==> first <= y
  }

  lemma {:induction false} RowIsCopy(start: Dom, dom: Dom, tokens: string -> set<string>, template: Id, c: Id, of: map<Id, Id>)
    requires Sound(start) && Grew(start, dom) && template in start.nodes && c in dom.nodes
    requires c in of && of[c] == template && AllMirror(start, dom, Plain(start, tokens), of, c) && of.Keys !! start.nodes.Keys
    requires dom.nodes[c] == StripId(start.nodes[template])
    ensures IsRowOf(start.nodes.Keys, dom, tokens, template, c)
  {
    NothingGrew(dom);
    CopyStays(start, dom, dom, tokens, of, c);
  }

  lemma {:induction false} FewerThere(there: set<Id>, fewer: set<Id>, dom: Dom, tokens: string -> set<string>, template: Id, c: Id)
    requires IsRowOf(there, dom, tokens, template, c) && fewer <= there
    ensures IsRowOf(fewer, dom, tokens, template, c)
  {
    var of: map<Id, Id> :| c in of && of[c] == template && of.Keys !! there && AllMirror(dom, dom, Plain(dom, tokens), of, c);
    assert of.Keys !! fewer;
  }

  lemma {:induction false} RowsStay(there: set<Id>, was: Dom, dom: Dom, tokens: string -> set<string>, template: Id, matches: seq<int>, rows: seq<Id>)
    requires Sound(was) && Grew(was, dom) && CopiesOf(there, was, tokens, template, matches, rows)
    ensures CopiesOf(there, dom, tokens, template, matches, rows)
  {
    forall i | 0 <= i < |rows| && matches[i] < 0 ensures IsRowOf(there, dom, tokens, template, rows[i]) {
      RowStays(there, was, dom, tokens, template, rows[i]);
    }
  }

  lemma {:induction false} RowStays(there: set<Id>, was: Dom, dom: Dom, tokens: string -> set<string>, template: Id, c: Id)
    requires Sound(was) && Grew(was, dom) && IsRowOf(there, was, tokens, template, c)
    ensures IsRowOf(there, dom, tokens, template, c)
  {
    var of: map<Id, Id> :| c in of && of[c] == template && of.Keys !! there && AllMirror(was, was, Plain(was, tokens), of, c);
    CopyStays(was, was, dom, tokens, of, c);
  }

  lemma {:induction false} TemplateStays(before: Dom, was: Dom, dom: Dom, tokens: string -> set<string>, source: Id, template: Id)
    requires Sound(before) && Grew(before, was) && Grew(was, dom) && IsTemplateOf(before, was, tokens, source, template)
    ensures IsTemplateOf(before, dom, tokens, source, template)
  {
    var of: map<Id, Id> :| template in of && of[template] == source && of.Keys !! before.nodes.Keys && AllMirror(before, was, Plain(before, tokens), of, template);
    GrewTwice(before, was, dom);
    CopyStays(before, was, dom, tokens, of, template);
  }

  /** Just the copies were added to what is known to be copied. */
  ghost predicate Logged(before: set<Id>, of: map<Id, Id>, after: set<Id>) {
    forall y {:trigger y in after} :: y in after <==> y in before || y in of
  }

  // ----- rows being made -----

  /** The tree before rows are made, what they are made for, and the template they are copied from. */
  datatype Maker = NoMaker | Maker(before: Dom, oldNodes: seq<Id>, seed: Id, matches: seq<int>, template: Option<Id>, first: nat)

  function Source(oldNodes: seq<Id>, seed: Id): Id {
    if oldNodes == [] then seed else oldNodes[0]
  }

  /** No row is wanted twice, and there is a template where items are without one. */
  ghost predicate WellMatched(m: Maker, tokens: string -> set<string>) {
    match m
    case NoMaker => false
    case Maker(before, oldNodes, seed, matches, template, first) =>
      && Sound(before) && AreRows(before, tokens, oldNodes) && (oldNodes == [] ==> seed in before.nodes)
      && (forall i :: 0 <= i < |matches| ==> matches[i] < |oldNodes| && (matches[i] < 0 ==> template.Some?))
      && (forall i, j :: 0 <= i < j < |matches| && matches[i] >= 0 ==> matches[i] != matches[j])
      && forall n :: n in before.nodes ==> n < first
  }

  /** The first rows are made; new ones are copies of the template. */
  ghost predicate Making(m: Maker, dom: Dom, tokens: string -> set<string>, rows: seq<Id>, isNew: seq<bool>) {
    match m
    case NoMaker => false
    case Maker(before, oldNodes, seed, matches, template, first) =>
      && Made(before, dom, tokens, oldNodes, matches, rows) && MadeFrom(before, dom, first) && |isNew| == |rows|
      && (forall k :: 0 <= k < |rows| ==> rows[k] in dom.nodes && isNew[k] == (matches[k] < 0) && (matches[k] < 0 ==> first <= rows[k]))
      && (template.Some? ==> CopiedFrom(before, dom, tokens, Source(oldNodes, seed), template.value, matches, rows))
  }

  ghost predicate CopiedFrom(before: Dom, dom: Dom, tokens: string -> set<string>, source: Id, template: Id, matches: seq<int>, rows: seq<Id>) {
    && template in Shown(dom, tokens) && IsTemplateOf(before, dom, tokens, source, template)
    && CopiesOf(before.nodes.Keys, dom, tokens, template, matches, rows)
  }

  lemma {:induction false} MakingStarts(m: Maker, dom: Dom, tokens: string -> set<string>)
    requires WellMatched(m, tokens) && Grew(m.before, dom) && MadeFrom(m.before, dom, m.first)
    requires m.template.Some? ==>
      m.template.value in Shown(dom, tokens) && IsTemplateOf(m.before, dom, tokens, Source(m.oldNodes, m.seed), m.template.value)
    ensures Making(m, dom, tokens, [], [])
  {
  }

  lemma {:induction false} RowKept(m: Maker, dom: Dom, tokens: string -> set<string>, rows: seq<Id>, isNew: seq<bool>)
    requires WellMatched(m, tokens) && Making(m, dom, tokens, rows, isNew) && |rows| < |m.matches| && m.matches[|rows|] >= 0
    ensures Making(m, dom, tokens, rows + [m.oldNodes[m.matches[|rows|]]], isNew + [false])
  {
    AllKnown(m.before, tokens, m.oldNodes);
    KeptRow(m.before, dom, tokens, m.oldNodes, m.matches, rows);
  }

  lemma {:induction false} RowCloned(m: Maker, start: Dom, dom: Dom, tokens: string -> set<string>, rows: seq<Id>, isNew: seq<bool>, c: Id)
    requires WellMatched(m, tokens) && Making(m, start, tokens, rows, isNew) && |rows| < |m.matches| && m.matches[|rows|] < 0
    requires Grew(start, dom) && MadeFrom(start, dom, m.first)
    requires New(start, dom, c) && m.first <= c && c in Shown(dom, tokens) && c !in dom.parent
    requires IsRowOf(start.nodes.Keys, dom, tokens, m.template.value, c)
    ensures Making(m, dom, tokens, rows + [c], isNew + [true])
  {
    RowMade(m, start, dom, tokens, rows, isNew, c);
    RowCopied(m.before, start, dom, tokens, Source(m.oldNodes, m.seed), m.template.value, m.matches, rows, c);
  }

  lemma {:induction false} RowMade(m: Maker, start: Dom, dom: Dom, tokens: string -> set<string>, rows: seq<Id>, isNew: seq<bool>, c: Id)
    requires Making(m, start, tokens, rows, isNew) && |rows| < |m.matches| && m.matches[|rows|] < 0
    requires Grew(start, dom) && MadeFrom(start, dom, m.first)
    requires New(start, dom, c) && c in Shown(dom, tokens) && c !in dom.parent
    ensures Made(m.before, dom, tokens, m.oldNodes, m.matches, rows + [c]) && MadeFrom(m.before, dom, m.first)
  {
    MadeMore(m.before, start, dom, tokens, m.oldNodes, m.matches, rows);
    NewRow(m.before, dom, tokens, m.oldNodes, m.matches, rows, c);
    forall y | New(m.before, dom, y) ensures m.first <= y {
      assert New(m.before, start, y) || New(start, dom, y);
    }
  }

  lemma {:induction false} RowCopied(before: Dom, start: Dom, dom: Dom, tokens: string -> set<string>, source: Id, template: Id, matches: seq<int>, rows: seq<Id>, c: Id)
    requires Sound(before) && Grew(before, start) && Grew(start, dom) && |rows| < |matches|
    requires CopiedFrom(before, start, tokens, source, template, matches, rows) && IsRowOf(start.nodes.Keys, dom, tokens, template, c)
    ensures CopiedFrom(before, dom, tokens, source, template, matches, rows + [c])
  {
    TemplateStays(before, start, dom, tokens, source, template);
    RowsStay(before.nodes.Keys, start, dom, tokens, template, matches, rows);
    FewerThere(start.nodes.Keys, before.nodes.Keys, dom, tokens, template, c);
  }

  /** Every new item was matched with the row at its own position. */
  ghost predicate Identity(matches: seq<int>, rows: nat) {
    |matches| == rows && forall i :: 0 <= i < |matches| ==> matches[i] == i
  }

  /** A reconciliation under way: the tree it began with, the tree with the new rows made, and the rows. */
  datatype Plan = Plan(before: Dom, grew: Dom, oldNodes: seq<Id>, seed: Id, matches: seq<int>, rows: seq<Id>)

  ghost function Gone(plan: Plan): set<Id> {
    Unmatched(plan.oldNodes, Used(plan.matches), |plan.oldNodes|)
  }

  ghost predicate Planned(plan: Plan, tokens: string -> set<string>) {
    match plan
    case Plan(before, grew, oldNodes, seed, matches, rows) =>
      && Sound(before) && AreRows(before, tokens, oldNodes) && (oldNodes == [] ==> seed in before.nodes)
      && Made(before, grew, tokens, oldNodes, matches, rows) && |rows| == |matches|
      && forall i :: 0 <= i < |matches| ==> matches[i] < |oldNodes|
  }

  lemma {:induction false} PlanHolds(plan: Plan, tokens: string -> set<string>)
    requires Planned(plan, tokens)
    ensures AreRows(plan.grew, tokens, plan.oldNodes) && RowsToBe(plan.grew, tokens, plan.oldNodes, Gone(plan), plan.rows)
    ensures Contiguous(plan.grew, tokens, plan.oldNodes) == Contiguous(plan.before, tokens, plan.oldNodes)
  {
    RowsGrew(plan.before, plan.grew, tokens, plan.oldNodes);
    MadeRowsToBe(plan.before, plan.grew, tokens, plan.oldNodes, plan.matches, plan.rows);
  }

  ghost predicate Outcome(plan: Plan, after: Dom, tokens: string -> set<string>) {
    match plan
    case Plan(before, _, oldNodes, seed, matches, rows) =>
      AreRows(before, tokens, oldNodes) && Settled(before, after, tokens, oldNodes, seed, matches, rows)
  }

  lemma {:induction false} MakePlan(m: Maker, grew: Dom, tokens: string -> set<string>, rows: seq<Id>, isNew: seq<bool>)
    requires WellMatched(m, tokens) && Making(m, grew, tokens, rows, isNew) && |rows| == |m.matches|
    ensures var plan := Plan(m.before, grew, m.oldNodes, m.seed, m.matches, rows); Planned(plan, tokens) && NewFrom(plan, m.first)
    ensures Copies(m.before, grew, tokens, m.oldNodes, m.seed, m.matches, rows)
  {
  }

  lemma {:induction false} AllKnown(dom: Dom, tokens: string -> set<string>, rows: seq<Id>)
    requires AreRows(dom, tokens, rows)
    ensures NoRepeats(rows) && forall n :: n in rows ==> n in dom.nodes && n in Shown(dom, tokens)
  {
  }

  /** Rows of a contiguous run never leave their parent, and new ones come after it. */
  lemma {:induction false} RowsAtHome(plan: Plan, tokens: string -> set<string>, p: Id, a: nat, up: map<Id, Option<Id>>, bound: nat)
    requires Planned(plan, tokens) && Homed(plan.grew.parent, up) && up.Keys <= plan.before.nodes.Keys
    requires IsRun(plan.grew, tokens, p, plan.oldNodes, a) && p < bound && NewFrom(plan, bound)
    ensures forall n :: n in plan.rows ==> HomeAt(up, n, p)
  {
    forall i | 0 <= i < |plan.rows| ensures HomeAt(up, plan.rows[i], p) {
      if plan.matches[i] >= 0 {
        RunHangs(plan.grew, tokens, p, plan.oldNodes, a, plan.matches[i]);
        assert AtHome(plan.grew.parent, up, plan.rows[i]);
      }
    }
  }

  /** New nodes are numbered from `bound` on, and what was there before is not. */
  ghost predicate NewFrom(plan: Plan, bound: nat) {
    && (forall n :: n in plan.before.nodes ==> n < bound) && MadeFrom(plan.before, plan.grew, bound)
    && |plan.rows| == |plan.matches| && forall i :: 0 <= i < |plan.rows| && plan.matches[i] < 0 ==> bound <= plan.rows[i]
  }

  /** Rows hang before `bound`: those that were there did, and new ones hang nowhere. */
  lemma {:induction false} PlannedLow(plan: Plan, tokens: string -> set<string>, bound: nat, next: nat)
    requires Planned(plan, tokens) && NewFrom(plan, bound) && Below(plan.grew.parent, bound, next)
    ensures Low(plan.grew, plan.rows, bound) && Low(plan.grew, plan.oldNodes, bound)
  {
    AllKnown(plan.before, tokens, plan.oldNodes);
  }

  lemma {:induction false} MadeStays(plan: Plan, after: Dom, bound: nat)
    requires NewFrom(plan, bound) && after.nodes == plan.grew.nodes && Still(plan.grew, after, bound)
    ensures AsMade(plan.before, plan.grew, after)
  {
  }

  lemma {:induction false} TouchesThrough(plan: Plan, dropped: Dom, after: Dom, marked: set<Id>, more: set<Id>)
    requires Grew(plan.before, plan.grew) && Touches(plan.grew, dropped, marked) && Touches(dropped, after, more) && marked <= more
    ensures Touches(plan.before, after, more)
  {
    GrewTouches(plan.before, plan.grew, marked);
    TouchesMore(plan.grew, dropped, after, marked, more);
    TouchesMore(plan.before, plan.grew, after, marked, more);
  }

  lemma {:induction false} RunHangs(dom: Dom, tokens: string -> set<string>, p: Id, rows: seq<Id>, a: nat, k: int)
    requires Sound(dom) && IsRun(dom, tokens, p, rows, a) && 0 <= k < |rows|
    ensures rows[k] in dom.parent && dom.parent[rows[k]] == p
  {
    KeptMembers(Kids(dom, p), Shown(dom, tokens));
    assert rows[k] == ContentChildren(dom, tokens, p)[a..a + |rows|][k];
    assert rows[k] in Kids(dom, p);
  }

  /** Where the rows are to stand: in the run the old ones formed, or from the first one's place on. */
  ghost predicate Located(plan: Plan, tokens: string -> set<string>, p: Id, a: nat, contiguous: bool) {
    match plan
    case Plan(_, grew, oldNodes, seed, _, _) =>
      && AreRows(grew, tokens, oldNodes) && contiguous == Contiguous(grew, tokens, oldNodes) && StartsAt(grew, tokens, oldNodes, seed, p, a)
      && if contiguous then IsRun(grew, tokens, p, oldNodes, a) else oldNodes != []
  }

  lemma {:induction false} StartRun(plan: Plan, dom: Dom, tokens: string -> set<string>, p: Id, a: nat) returns (run: Run, line: seq<Id>)
    requires Planned(plan, tokens) && Located(plan, tokens, p, a, true) && Dropped(plan.grew, dom, Gone(plan))
    ensures run == RunOver(plan.grew, dom, tokens, p, plan.oldNodes, Gone(plan), a) && run.Run?
    ensures RunStanding(run, dom, tokens, p, plan.rows, 0, a, line)
    ensures Identity(plan.matches, |plan.oldNodes|) ==> run.rest == plan.rows
  {
    PlanHolds(plan, tokens);
    run := RunOver(plan.grew, dom, tokens, p, plan.oldNodes, Gone(plan), a);
    line := ReadyToPlace(plan.grew, dom, tokens, p, plan.oldNodes, Gone(plan), plan.rows, a);
    if Identity(plan.matches, |plan.oldNodes|) {
      RestIsAll(plan, tokens);
    }
  }

  lemma {:induction false} IdentityUses(matches: seq<int>, rows: nat)
    ensures Identity(matches, rows) ==> forall k :: 0 <= k < rows ==> k in Used(matches)
  {
    if Identity(matches, rows) {
      forall k | 0 <= k < rows ensures k in Used(matches) {
        assert matches[k] == k;
      }
    }
  }

  lemma {:induction false} RestIsAll(plan: Plan, tokens: string -> set<string>)
    requires Planned(plan, tokens) && Identity(plan.matches, |plan.oldNodes|)
    ensures plan.rows == plan.oldNodes && Gone(plan) == {}
    ensures Kept(plan.oldNodes, plan.grew.nodes.Keys - Gone(plan)) == plan.rows
  {
    IdentityUses(plan.matches, |plan.oldNodes|);
    forall k | 0 <= k < |plan.oldNodes| ensures plan.oldNodes[k] in plan.grew.nodes {
      assert plan.oldNodes[k] in Shown(plan.grew, tokens);
    }
    assert Gone(plan) == {};
    SameRows(plan.oldNodes, plan.matches, plan.rows);
    KeptAll(plan.oldNodes, plan.grew.nodes.Keys - Gone(plan));
  }

  lemma {:induction false} SameRows(oldNodes: seq<Id>, matches: seq<int>, rows: seq<Id>)
    requires Identity(matches, |oldNodes|) && |rows| == |matches|
    requires forall i :: 0 <= i < |rows| && 0 <= matches[i] < |oldNodes| ==> rows[i] == oldNodes[matches[i]]
    ensures rows == oldNodes
  {
    forall i | 0 <= i < |rows| ensures rows[i] == oldNodes[i] {
      assert matches[i] == i;
    }
  }

  lemma {:induction false} FinishRun(plan: Plan, dropped: Dom, after: Dom, tokens: string -> set<string>, p: Id, a: nat, run: Run)
    requires Planned(plan, tokens) && Located(plan, tokens, p, a, true) && Dropped(plan.grew, dropped, Gone(plan))
    requires run == RunOver(plan.grew, dropped, tokens, p, plan.oldNodes, Gone(plan), a)
    requires run.Run? && Placing(run, after, tokens, p, plan.rows, run.prefix + plan.rows + run.suffix)
    ensures Outcome(plan, after, tokens)
  {
    PlanHolds(plan, tokens);
    AllKnown(plan.before, tokens, plan.oldNodes);
    StartsThere(plan.before, plan.grew, tokens, plan.oldNodes, plan.seed, p, a);
    PlacedReconciles(plan.before, plan.grew, dropped, after, tokens, p, plan.oldNodes, Gone(plan), plan.rows, a);
  }

  ghost function GrowthOf(plan: Plan, dom: Dom): (g: Growth)
    ensures g.Growth?
  {
    Growth(dom, plan.rows, NewAmong(plan.before, plan.rows))
  }

  lemma {:induction false} StartGrowth(plan: Plan, dom: Dom, tokens: string -> set<string>, p: Id, a: nat)
    requires Planned(plan, tokens) && Located(plan, tokens, p, a, false) && Dropped(plan.grew, dom, Gone(plan))
    ensures Growable(GrowthOf(plan, dom), tokens) && Growing(GrowthOf(plan, dom), dom, tokens, 0)
    ensures a <= |ContentChildren(dom, tokens, p)|
  {
    PlanHolds(plan, tokens);
    NewAreNotOld(plan, tokens);
    ReadyToGrow(plan.before, plan.grew, dom, tokens, plan.oldNodes, Gone(plan), plan.rows);
    StartsNoLater(plan.grew, dom, tokens, plan.oldNodes, Gone(plan));
  }

  lemma {:induction false} NewAreNotOld(plan: Plan, tokens: string -> set<string>)
    requires Planned(plan, tokens)
    ensures forall n :: n in plan.rows ==> (n in plan.oldNodes <==> n in plan.before.nodes)
    ensures forall i :: 0 <= i < |plan.rows| ==> (plan.matches[i] < 0 <==> plan.rows[i] in NewAmong(plan.before, plan.rows))
  {
    forall n | n in plan.oldNodes ensures n in plan.before.nodes {
      assert n in Shown(plan.before, tokens);
    }
  }

  lemma {:induction false} FinishGrowth(plan: Plan, dropped: Dom, after: Dom, tokens: string -> set<string>, p: Id, a: nat)
    requires Planned(plan, tokens) && Located(plan, tokens, p, a, false) && Dropped(plan.grew, dropped, Gone(plan))
    requires Growing(GrowthOf(plan, dropped), after, tokens, |plan.rows|)
    ensures Outcome(plan, after, tokens)
  {
    PlanHolds(plan, tokens);
    GrownReconciles(plan.before, plan.grew, dropped, after, tokens, Gone(plan), GrowthOf(plan, dropped));
  }

  /** Where a write stands: the tree, the number of the next node, and what bounds where nodes may hang. */
  datatype Stage = Curtain | Stage(dom: Dom, nextId: Id, bound: nat, up: map<Id, Option<Id>>, depth: Depth)

  ghost predicate Tidy(stage: Stage) {
    match stage
    case Curtain => false
    case Stage(dom, nextId, bound, up, depth) =>
      var known := Sound(dom) && (forall n :: n in dom.nodes ==> n < nextId) && up.Keys <= dom.nodes.Keys;
      var hung := Homed(dom.parent, up) && Below(dom.parent, bound, nextId) && Leads(up, depth);
      known && hung
  }

  /** What a write leaves to see: the page, what was touched, what was copied, what was refused. */
  type Marks = (Dom, set<Id>, set<Id>, seq<Id>)

  class Writer {
    /** Splits a clay attribute at white space. */
    const tokens: string -> set<string>
    /** The node is the page's rules tag or holds it. */
    const guards: (Dom, Id) -> bool
    var dom: Dom
    /** The nodes whose bytes a write changed. */
    var dirty: set<Id>
    var cloned: set<Id>
    var refusals: seq<Id>
    var nextId: Id
    /** What held each node when the page was parsed. */
    ghost const up: map<Id, Option<Id>>
    /** Nodes from here on were made by the write under way, and hold only each other. */
    ghost var bound: nat
    /** Deeper nodes are further down. */
    ghost const depth: Depth

    constructor (tokens: string -> set<string>, guards: (Dom, Id) -> bool, dom: Dom, nextId: Id, ghost depth: Depth)
      ensures this.tokens == tokens && this.guards == guards && this.dom == dom && this.nextId == nextId
      ensures dirty == {} && cloned == {} && refusals == [] && up == Hooks(dom)
      ensures Sound(dom) && (forall n :: n in dom.nodes ==> n < nextId) && Below(dom.parent, nextId, nextId) && Leads(Hooks(dom), depth) ==> Valid()
    {
      up, bound, this.depth := Hooks(dom), nextId, depth;
      this.tokens, this.guards, this.dom, this.nextId := tokens, guards, dom, nextId;
      dirty, cloned, refusals := {}, {}, [];
    }

    ghost predicate Valid()
      reads this
    {
      Tidy(Stage(dom, nextId, bound, up, depth))
    }

    /** Every node hangs where it may. */
    ghost predicate Hangs()
      reads this
    {
      Homed(dom.parent, up) && Below(dom.parent, bound, nextId)
    }

    /** Whether a node may be put below `p`. */
    ghost predicate MayHang(c: Id, p: Id)
      reads this
    {
      HomeAt(up, c, p) && p < bound
    }

    /** Puts `node` before the counted child `index` of `p`, taking it from where it is. */
    method InsertAt(p: Id, node: Id, index: nat, ghost rows: seq<Id>)
      requires Sound(dom) && node in dom.nodes
      requires Hangs() && MayHang(node, p) && Low(dom, rows, bound) && node in rows
      modifies this`dom, this`dirty
      ensures Hangs() && Still(old(dom), dom, bound) && Low(dom, rows, bound)
      ensures Sound(dom) && dom.nodes == old(dom.nodes)
      ensures CanLand(old(dom), tokens, p, node, index) ==> Landed(old(dom), dom, tokens, p, node, index)
      ensures dirty == old(dirty) + {p} + ParentsOf(old(dom), {node}) && Touches(old(dom), dom, dirty)
    {
      InsertHomed(dom, tokens, p, node, index, up);
      InsertBelow(dom, tokens, p, node, index, bound, nextId);
      InsertStill(dom, tokens, p, node, index, bound, rows);
      InsertedDoes(dom, tokens, p, node, index);
      dirty := dirty + {p};
      if node in dom.parent {
        dirty := dirty + {dom.parent[node]};
      }
      InsertTouches(dom, tokens, p, node, index, dirty);
      Relocate(p, node, index);
    }

    method Relocate(p: Id, node: Id, index: nat)
      requires Sound(dom)
      modifies this`dom
      ensures dom == Inserted(old(dom), tokens, p, node, index)
    {
      var anchor := AnchorFor(dom, tokens, p, index);
      if anchor == Some(node) {
        return;
      }
      dom := Detached(dom, node);
      dom := Placed(dom, p, node, PlaceOf(dom, p, anchor));
    }

    /** Takes a row off the tree, unless that would take the rules tag with it. */
    method Remove(node: Id)
      requires Sound(dom)
      modifies this`dom, this`dirty, this`refusals
      ensures guards(old(dom), node) ==> refusals == old(refusals) + [node] && dom == old(dom) && dirty == old(dirty)
      ensures !guards(old(dom), node) ==>
        refusals == old(refusals) && dom == Detached(old(dom), node) && dirty == old(dirty) + ParentsOf(old(dom), {node})
    {
      if guards(dom, node) {
        refusals := refusals + [node];
        return;
      }
      if node in dom.parent {
        dirty := dirty + {dom.parent[node]};
      }
      dom := Detached(dom, node);
    }

    /** Takes row `i` off the tree when no item was matched with it. */
    method RemoveRow(rows: seq<Id>, used: set<nat>, i: nat, ghost start: Dom, ghost marked: set<Id>, ghost asked: bool)
      requires Sound(dom) && Hangs() && i < |rows| && Touches(start, dom, dirty) && Pruned(start, dom, bound) && Low(start, rows, bound)
      requires asked ==> Removed(start, dom, marked, dirty, Unmatched(rows, used, i))
      modifies this`dom, this`dirty, this`refusals
      ensures Sound(dom) && Hangs() && dom.nodes == old(dom.nodes) && old(refusals) <= refusals
      ensures Touches(start, dom, dirty) && old(dirty) <= dirty
      ensures asked && refusals == old(refusals) ==> Removed(start, dom, marked, dirty, Unmatched(rows, used, i + 1))
      ensures i in used ==> dom == old(dom) && dirty == old(dirty) && refusals == old(refusals)
      ensures Pruned(start, dom, bound)
    {
      if asked {
        RemoveNext(start, dom, marked, dirty, rows, used, i);
      }
      if i in used {
        return;
      }
      ghost var wider := dirty + ParentsOf(dom, {rows[i]});
      DetachedSound(dom, rows[i]);
      DetachHomed(dom, rows[i], up);
      DetachBelow(dom, rows[i], bound, nextId);
      PruneOne(start, dom, rows[i], bound, rows);
      DetachTouches(dom, rows[i], wider);
      TouchesMore(start, dom, Detached(dom, rows[i]), dirty, wider);
      Remove(rows[i]);
    }

    /** Removes every row no new item was matched with. */
    method RemoveUnmatched(rows: seq<Id>, used: set<nat>)
      requires Sound(dom) && Hangs() && Low(dom, rows, bound)
      modifies this`dom, this`dirty, this`refusals
      ensures Sound(dom) && Hangs() && dom.nodes == old(dom.nodes) && old(refusals) <= refusals
      ensures Touches(old(dom), dom, dirty) && old(dirty) <= dirty
      ensures refusals == old(refusals) ==> Removed(old(dom), dom, old(dirty), dirty, Unmatched(rows, used, |rows|))
      ensures (forall k :: 0 <= k < |rows| ==> k in used) ==> dom == old(dom) && dirty == old(dirty) && refusals == old(refusals)
      ensures Pruned(old(dom), dom, bound)
    {
      NothingRemoved(dom, dirty, rows, used);
      for i := 0 to |rows|
        invariant Sound(dom) && Hangs() && dom.nodes == old(dom.nodes) && old(refusals) <= refusals
        invariant Touches(old(dom), dom, dirty) && old(dirty) <= dirty
        invariant refusals == old(refusals) ==> Removed(old(dom), dom, old(dirty), dirty, Unmatched(rows, used, i))
        invariant (forall k :: 0 <= k < |rows| ==> k in used) ==> dom == old(dom) && dirty == old(dirty) && refusals == old(refusals)
        invariant Pruned(old(dom), dom, bound)
      {
        RemoveRow(rows, used, i, old(dom), old(dirty), refusals == old(refusals));
      }
    }

    /** Puts row `i` at its place among the counted children of `p`. */
    method PlaceRow(p: Id, rows: seq<Id>, i: nat, anchorIdx: nat, ghost run: Run, ghost line: seq<Id>) returns (ghost next: seq<Id>)
      requires Sound(dom) && i < |rows| && rows[i] in dom.nodes
      requires Hangs() && MayHang(rows[i], p) && Low(dom, rows, bound)
      requires run.Run? ==> RunStanding(run, dom, tokens, p, rows, i, anchorIdx, line)
      modifies this`dom, this`dirty
      ensures Hangs() && Still(old(dom), dom, bound) && Low(dom, rows, bound)
      ensures Sound(dom) && dom.nodes == old(dom.nodes)
      ensures Touches(old(dom), dom, dirty) && old(dirty) <= dirty
      ensures run.Run? ==> RunStanding(run, dom, tokens, p, rows, i + 1, anchorIdx, next) && old(dirty) <= dirty <= old(dirty) + {p}
      ensures IndexOf(ContentChildren(old(dom), tokens, p), rows[i]) == anchorIdx + i ==> dom == old(dom) && dirty == old(dirty)
    {
      if IndexOf(AdapterChildren(dom, tokens, p), rows[i]) == anchorIdx + i {
        if run.Run? {
          RunStays(run, dom, tokens, p, rows, i, anchorIdx, line);
        }
        return line;
      }
      next := Shifted(line, rows[i], anchorIdx + i);
      MoveRow(p, rows, i, anchorIdx, run, line);
    }

    method MoveRow(p: Id, rows: seq<Id>, i: nat, anchorIdx: nat, ghost run: Run, ghost line: seq<Id>)
      requires Sound(dom) && i < |rows| && rows[i] in dom.nodes
      requires Hangs() && MayHang(rows[i], p) && Low(dom, rows, bound)
      requires run.Run? ==> RunStanding(run, dom, tokens, p, rows, i, anchorIdx, line) && IndexOf(line, rows[i]) != anchorIdx + i
      modifies this`dom, this`dirty
      ensures Hangs() && Still(old(dom), dom, bound) && Low(dom, rows, bound)
      ensures Sound(dom) && dom.nodes == old(dom.nodes)
      ensures Touches(old(dom), dom, dirty) && old(dirty) <= dirty
      ensures run.Run? ==> RunStanding(run, dom, tokens, p, rows, i + 1, anchorIdx, Shifted(line, rows[i], anchorIdx + i))
      ensures run.Run? ==> old(dirty) <= dirty <= old(dirty) + {p}
    {
      if run.Run? {
        RunCanGoOn(run, dom, tokens, p, rows, i, anchorIdx, line);
        RowIsUnder(run, dom, tokens, p, rows, i, anchorIdx, line);
      }
      InsertAt(p, rows[i], anchorIdx + i, rows);
      if run.Run? {
        RunGoesOn(run, old(dom), dom, tokens, p, rows, i, anchorIdx, line);
      }
    }

    /** Places each row at its target index; a row already there is left alone. */
    method PlaceRun(p: Id, rows: seq<Id>, anchorIdx: nat, ghost run: Run, ghost start: seq<Id>)
      requires Sound(dom) && forall n :: n in rows ==> n in dom.nodes
      requires Hangs() && p < bound && Low(dom, rows, bound) && forall n :: n in rows ==> HomeAt(up, n, p)
      requires run.Run? ==> RunStanding(run, dom, tokens, p, rows, 0, anchorIdx, start)
      modifies this`dom, this`dirty
      ensures Hangs() && Still(old(dom), dom, bound) && Low(dom, rows, bound)
      ensures Sound(dom) && dom.nodes == old(dom.nodes)
      ensures Touches(old(dom), dom, dirty) && old(dirty) <= dirty
      ensures run.Run? ==>
        && Placing(run, dom, tokens, p, rows, run.prefix + rows + run.suffix)
        && old(dirty) <= dirty <= old(dirty) + {p}
        && (run.rest == rows ==> dom == old(dom) && dirty == old(dirty))
    {
      ghost var line := start;
      for i := 0 to |rows|
        invariant Hangs() && Still(old(dom), dom, bound) && Low(dom, rows, bound)
        invariant Sound(dom) && dom.nodes == old(dom.nodes)
        invariant Touches(old(dom), dom, dirty) && old(dirty) <= dirty
        invariant run.Run? ==> RunStanding(run, dom, tokens, p, rows, i, anchorIdx, line) && old(dirty) <= dirty <= old(dirty) + {p}
        invariant run.Run? && run.rest == rows ==> dom == old(dom) && dirty == old(dirty)
      {
        if run.Run? && run.rest == rows {
          RunInOrder(run, old(dom), tokens, p, rows, i, anchorIdx, start);
        }
        ghost var before, marked := dom, dirty;
        line := PlaceRow(p, rows, i, anchorIdx, run, line);
        TouchesMore(old(dom), before, dom, marked, dirty);
      }
      if run.Run? {
        LineEnds(run, rows, line);
      }
    }

    method GrowRow(rows: seq<Id>, i: nat, parent: Id, at: nat, ghost g: Growth)
      requires Sound(dom) && i < |rows| && rows[i] in dom.nodes
      requires Hangs() && MayHang(rows[i], parent) && Low(dom, rows, bound)
      requires g.Growth? ==> g.rows == rows && Growable(g, tokens) && Growing(g, dom, tokens, i) && GrowsAt(g, dom, tokens, i, parent, at)
      modifies this`dom, this`dirty
      ensures Hangs() && Still(old(dom), dom, bound) && Low(dom, rows, bound)
      ensures Sound(dom) && dom.nodes == old(dom.nodes)
      ensures Touches(old(dom), dom, dirty) && old(dirty) <= dirty
      ensures g.Growth? ==> Growing(g, dom, tokens, i + 1)
    {
      if g.Growth? {
        GrowLands(g, dom, tokens, i, parent, at);
      }
      InsertAt(parent, rows[i], at, rows);
      if g.Growth? {
        GrowNext(g, old(dom), dom, tokens, i, parent, at);
      }
    }

    /** Puts each grown row after the row before it; with none before it, where the list started. */
    method PlaceGrown(rows: seq<Id>, isNew: seq<bool>, fallbackParent: Id, fallbackIdx: nat, ghost g: Growth)
      requires Sound(dom) && (forall n :: n in rows ==> n in dom.nodes) && |isNew| == |rows|
      requires Hangs() && fallbackParent < bound && Low(dom, rows, bound) && forall i :: 0 <= i < |rows| && isNew[i] ==> rows[i] !in up && bound <= rows[i]
      requires g.Growth? ==>
        && g.rows == rows && Growable(g, tokens) && Growing(g, dom, tokens, 0)
        && (forall i :: 0 <= i < |rows| ==> isNew[i] == (rows[i] in g.grown))
        && fallbackIdx <= |ContentChildren(dom, tokens, fallbackParent)|
      modifies this`dom, this`dirty
      ensures Hangs() && Still(old(dom), dom, bound) && Low(dom, rows, bound)
      ensures Sound(dom) && dom.nodes == old(dom.nodes)
      ensures Touches(old(dom), dom, dirty) && old(dirty) <= dirty
      ensures g.Growth? ==> Growing(g, dom, tokens, |rows|)
      ensures (forall i :: 0 <= i < |isNew| ==> !isNew[i]) ==> dom == old(dom) && dirty == old(dirty)
    {
      var anchor: Option<Id> := None;
      var nextFallbackIdx := fallbackIdx;
      for i := 0 to |rows|
        invariant Hangs() && Still(old(dom), dom, bound) && Low(dom, rows, bound)
        invariant Sound(dom) && dom.nodes == old(dom.nodes)
        invariant Touches(old(dom), dom, dirty) && old(dirty) <= dirty
        invariant g.Growth? ==> Growing(g, dom, tokens, i)
        invariant anchor.Some? ==> anchor.value in rows
        invariant g.Growth? ==> if i == 0 then anchor == None && dom == old(dom) && nextFallbackIdx == fallbackIdx else anchor == Some(rows[i - 1])
        invariant (forall i :: 0 <= i < |isNew| ==> !isNew[i]) ==> dom == old(dom) && dirty == old(dirty)
      {
        if !isNew[i] {
          if g.Growth? {
            GrowOver(g, dom, tokens, i);
          }
          anchor := Some(rows[i]);
          continue;
        }
        var parent := fallbackParent;
        var at := nextFallbackIdx;
        if anchor.Some? {
          if anchor.value !in dom.parent {
            continue;
          }
          parent := dom.parent[anchor.value];
          at := IndexOf(AdapterChildren(dom, tokens, parent), anchor.value) + 1;
        } else {
          nextFallbackIdx := nextFallbackIdx + 1;
        }
        ghost var before, marked := dom, dirty;
        GrowRow(rows, i, parent, at, g);
        TouchesMore(old(dom), before, dom, marked, dirty);
        anchor := Some(rows[i]);
      }
    }

    /** Where each row stands among the siblings, none when one of them does not. */
    static method Indices(siblings: seq<Id>, rows: seq<Id>) returns (indices: Option<seq<int>>)
      ensures indices.Some? ==> |indices.value| == |rows| && forall h :: 0 <= h < |rows| ==> indices.value[h] == IndexOf(siblings, rows[h]) >= 0
      ensures indices.None? ==> exists h :: 0 <= h < |rows| && rows[h] !in siblings
    {
      var found: seq<int> := [];
      for k := 0 to |rows|
        invariant |found| == k && forall h :: 0 <= h < k ==> found[h] == IndexOf(siblings, rows[h]) >= 0
      {
        var i := IndexOf(siblings, rows[k]);
        if i == -1 {
          return None;
        }
        found := found + [i];
      }
      return Some(found);
    }

    /** The rows fill a contiguous run of element siblings under one parent; they come in page order. */
    method IsContiguousRun(rows: seq<Id>) returns (contiguous: bool)
      requires Sound(dom) && AreRows(dom, tokens, rows)
      ensures contiguous == Contiguous(dom, tokens, rows)
    {
      if |rows| <= 1 {
        return true;
      }
      var parent := dom.parent[rows[0]];
      var siblings := AdapterChildren(dom, tokens, parent);
      var indices := Indices(siblings, rows);
      ByIndices(dom, tokens, rows, indices);
      if indices.None? {
        return false;
      }
      return indices.value[|rows| - 1] - indices.value[0] == |rows| - 1;
    }

    /**
     A copy of the node with all it holds but what opted out, hanging nowhere. What it holds loses its ids at
     once; the caller strips the copy itself.
     */
    method CloneNode(n: Id, ghost start: Dom, ghost top: nat) returns (c: Id, ghost of: map<Id, Id>)
      requires Valid() && Startable(Copier(start, Plain(start, tokens), dom, n, nextId), up, depth, top)
      modifies this`dom, this`cloned, this`nextId
      ensures Valid() && c == old(nextId) < nextId && Logged(old(cloned), of, cloned)
      ensures Underway(Copier(start, Plain(start, tokens), old(dom), n, c), dom, of, |Kids(start, n)|)
      decreases top - depth(n), 2
    {
      ghost var w := Copier(start, Plain(start, tokens), dom, n, nextId);
      ghost var marked := cloned;
      c := Begin(n, w, top);
      of := CloneKids(w, Kids(dom, n), c, top, map[c := n], marked);
    }

    /** A copy that holds nothing yet. */
    method Begin(n: Id, ghost w: Copier, ghost top: nat) returns (c: Id)
      requires Valid() && w.Copier? && w == Copier(w.start, w.plain, dom, n, nextId) && Startable(w, up, depth, top)
      modifies this`dom, this`cloned, this`nextId
      ensures Valid() && bound <= c == old(nextId) < nextId && Underway(w, dom, map[c := n], 0)
      ensures cloned == old(cloned) + {c} && Kids(dom, n) == Kids(w.start, n)
    {
      CopyBegins(w, up, depth, top);
      c := Take(n);
    }

    method CloneKids(ghost w: Copier, kids: seq<Id>, c: Id, ghost top: nat, ghost begun: map<Id, Id>, ghost marked: set<Id>) returns (ghost of: map<Id, Id>)
      requires Valid() && w.Copier? && w.plain == Plain(w.start, tokens) && bound <= c == w.c < nextId && Startable(w, up, depth, top)
      requires kids == Kids(w.start, w.n) && Underway(w, dom, begun, 0) && Logged(marked, begun, cloned)
      modifies this`dom, this`cloned, this`nextId
      ensures Valid() && c < nextId && Underway(w, dom, of, |kids|)
      ensures Logged(marked, of, cloned)
      decreases top - depth(w.n), 1
    {
      of := begun;
      for i := 0 to |kids|
        invariant Valid() && c < nextId && Underway(w, dom, of, i)
        invariant Logged(marked, of, cloned)
      {
        of := CloneChild(w, kids, i, c, top, of, marked);
      }
    }

    method CloneChild(ghost w: Copier, kids: seq<Id>, i: nat, c: Id, ghost top: nat, ghost of: map<Id, Id>, ghost marked: set<Id>) returns (ghost more: map<Id, Id>)
      requires Valid() && w.Copier? && w.plain == Plain(w.start, tokens) && bound <= c == w.c < nextId && Startable(w, up, depth, top)
      requires kids == Kids(w.start, w.n) && i < |kids| && Underway(w, dom, of, i) && Logged(marked, of, cloned)
      modifies this`dom, this`cloned, this`nextId
      ensures Valid() && c < nextId && Underway(w, dom, more, i + 1)
      ensures Logged(marked, more, cloned)
      decreases top - depth(w.n), 0
    {
      KidStarts(w, dom, of, i, up, depth, top, nextId);
      if NoData(dom.nodes[kids[i]], tokens) {
        CopySkips(w, dom, of, i);
        return of;
      }
      ghost var was := dom;
      var cc, sub := CloneNode(kids[i], w.start, top);
      more := of + sub;
      ChildJoins(w, Copier(w.start, w.plain, was, kids[i], cc), was, dom, of, sub, i);
      Adopt(c, cc);
    }

    /** A new node that looks like `n`. */
    method Take(n: Id) returns (c: Id)
      requires Valid() && n in dom.nodes
      modifies this`dom, this`cloned, this`nextId
      ensures Valid() && bound <= c == old(nextId) < nextId && dom == old(dom).(nodes := old(dom.nodes)[c := old(dom.nodes)[n]]) && cloned == old(cloned) + {c}
    {
      c := nextId;
      nextId := nextId + 1;
      dom := dom.(nodes := dom.nodes[c := dom.nodes[n]]);
      cloned := cloned + {c};
    }

    method Adopt(c: Id, cc: Id)
      requires Valid() && cc in dom.nodes && cc !in dom.parent && c in dom.nodes && bound <= c < cc < nextId && cc !in up
      modifies this`dom
      ensures Valid() && dom == Adopted(old(dom), c, cc)
    {
      ghost var was := dom;
      dom := dom.(nodes := dom.nodes[cc := NoId(dom.nodes[cc])]);
      PlacedSound(dom, c, cc, |Kids(dom, c)|);
      dom := Placed(dom, c, cc, |Kids(dom, c)|);
      HangsBelow(was, dom, c, cc);
    }

    /** A new node below an earlier new one. */
    ghost method HangsBelow(was: Dom, now: Dom, c: Id, cc: Id)
      requires Homed(was.parent, up) && Below(was.parent, bound, nextId) && bound <= c < cc < nextId && cc !in up
      requires now.parent == was.parent[cc := c]
      ensures Homed(now.parent, up) && Below(now.parent, bound, nextId)
    {
      forall x ensures AtHome(now.parent, up, x) {
        assert AtHome(was.parent, up, x);
      }
    }

    /** The row every grown row is cloned from. */
    method MakeTemplate(source: Id) returns (template: Id)
      requires Valid() && source in Shown(dom, tokens)
      modifies this`dom, this`cloned, this`nextId, this`dirty
      ensures Valid() && Grew(old(dom), dom) && template in Shown(dom, tokens) && MadeFrom(old(dom), dom, old(nextId))
      ensures template == old(nextId) < nextId && template !in old(dom.nodes) && dirty == old(dirty) + {template}
      ensures IsTemplateOf(old(dom), dom, tokens, source, template)
    {
      ghost var start := dom;
      ghost var top := Deepest(dom.nodes.Keys, depth);
      NothingGrew(dom);
      ghost var of;
      template, of := CloneNode(source, start, top);
      CopyEnds(Copier(start, Plain(start, tokens), start, source, template), dom, of);
      StillCounted(dom.nodes[template], tokens);
      StillCounted(StripSeedMark(dom.nodes[template]), tokens);
      Relook(start, of, template, StripSeedMark(dom.nodes[template]));
      dirty := dirty + {template};
      Relook(start, of, template, StripId(dom.nodes[template]));
    }

    /** Gives a copy's root another look. */
    method Relook(ghost start: Dom, ghost of: map<Id, Id>, c: Id, data: NodeData)
      requires Valid() && Grew(start, dom) && New(start, dom, c) && c in of && AllMirror(start, dom, Plain(start, tokens), of, c)
      modifies this`dom
      ensures Valid() && Grew(start, dom) && dom == old(dom).(nodes := old(dom.nodes)[c := data]) && AllMirror(start, dom, Plain(start, tokens), of, c)
    {
      GrewOtherwise(start, dom, c, data);
      RootRelooks(start, dom, Plain(start, tokens), of, c, data);
      dom := dom.(nodes := dom.nodes[c := data]);
    }

    /** Each new item's row: the node it was matched with, or a clone of the template. */
    method MakeRows(oldNodes: seq<Id>, template: Option<Id>, matches: seq<int>, ghost m: Maker) returns (rows: seq<Id>, isNew: seq<bool>)
      requires Valid() && WellMatched(m, tokens) && Making(m, dom, tokens, [], []) && m.first <= nextId
      requires m == Maker(m.before, oldNodes, m.seed, matches, template, m.first)
      modifies this`dom, this`cloned, this`nextId
      ensures Valid() && Making(m, dom, tokens, rows, isNew) && |rows| == |matches|
      ensures (forall i :: 0 <= i < |matches| ==> matches[i] >= 0) ==> dom == old(dom) && cloned == old(cloned) && nextId == old(nextId)
    {
      rows, isNew := [], [];
      for i := 0 to |matches|
        invariant Valid() && Making(m, dom, tokens, rows, isNew) && |rows| == i && m.first <= nextId
        invariant (forall i :: 0 <= i < |matches| ==> matches[i] >= 0) ==> dom == old(dom) && cloned == old(cloned) && nextId == old(nextId)
      {
        if matches[i] >= 0 {
          RowKept(m, dom, tokens, rows, isNew);
          rows := rows + [oldNodes[matches[i]]];
          isNew := isNew + [false];
        } else {
          ghost var start := dom;
          var c := CloneRow(template.value);
          RowCloned(m, start, dom, tokens, rows, isNew, c);
          rows := rows + [c];
          isNew := isNew + [true];
        }
      }
    }

    method CloneRow(template: Id) returns (c: Id)
      requires Valid() && template in Shown(dom, tokens)
      modifies this`dom, this`cloned, this`nextId
      ensures Valid() && Grew(old(dom), dom) && New(old(dom), dom, c) && c == old(nextId) < nextId && MadeFrom(old(dom), dom, old(nextId))
      ensures c in Shown(dom, tokens) && c !in dom.parent && IsRowOf(old(dom.nodes.Keys), dom, tokens, template, c)
    {
      ghost var start := dom;
      ghost var top := Deepest(dom.nodes.Keys, depth);
      NothingGrew(dom);
      ghost var of;
      c, of := CloneNode(template, start, top);
      CopyEnds(Copier(start, Plain(start, tokens), start, template, c), dom, of);
      StillCounted(dom.nodes[c], tokens);
      Relook(start, of, c, StripId(dom.nodes[c]));
      RowIsCopy(start, dom, tokens, template, c, of);
    }

    /** Where the list starts, and whether it has an order of its own to restore. */
    method FindPlace(oldNodes: seq<Id>, seed: Id) returns (parent: Id, anchorIdx: nat, contiguous: bool)
      requires Sound(dom) && AreRows(dom, tokens, oldNodes) && (oldNodes == [] ==> seed in dom.parent)
      ensures contiguous == Contiguous(dom, tokens, oldNodes) && (oldNodes == [] ==> contiguous)
      ensures contiguous ==> IsRun(dom, tokens, parent, oldNodes, anchorIdx)
      ensures StartsAt(dom, tokens, oldNodes, seed, parent, anchorIdx)
    {
      if |oldNodes| == 0 {
        return dom.parent[seed], 0, true;
      }
      parent := dom.parent[oldNodes[0]];
      RowIsCounted(dom, tokens, oldNodes[0]);
      anchorIdx := IndexOf(AdapterChildren(dom, tokens, parent), oldNodes[0]);
      contiguous := IsContiguousRun(oldNodes);
    }

    /**
     Reconciles the rows with the new items, matched as `matches` says. `seed` is what a list with no
     rows is grown from.
     */
    method Reconcile(oldNodes: seq<Id>, seed: Id, matches: seq<int>) returns (rows: seq<Id>, ghost plan: Plan)
      requires Valid() && AreRows(dom, tokens, oldNodes)
      requires forall i :: 0 <= i < |matches| ==> matches[i] < |oldNodes| && (matches[i] < 0 ==> |matches| > |oldNodes|)
      requires forall i, j :: 0 <= i < j < |matches| && matches[i] >= 0 ==> matches[i] != matches[j]
      requires oldNodes == [] ==> seed in Shown(dom, tokens) && seed in dom.parent
      modifies this
      ensures Valid() && old(refusals) <= refusals && |rows| == |matches| && forall n :: n in rows ==> n in dom.nodes
      ensures Touches(old(dom), dom, dirty) && old(dirty) <= dirty
      ensures forall i :: 0 <= i < |matches| ==> if matches[i] >= 0 then rows[i] == oldNodes[matches[i]] else rows[i] !in old(dom.nodes)
      ensures plan.before == old(dom) && plan.oldNodes == oldNodes && plan.seed == seed && plan.matches == matches && plan.rows == rows
      ensures refusals == old(refusals) ==> Outcome(plan, dom, tokens)
      ensures Copied(old(dom), dom, tokens, oldNodes, seed, matches, rows)
      ensures Identity(matches, |oldNodes|) ==> rows == oldNodes && Marks() == old(Marks())
    {
      var isNew;
      rows, isNew, plan := Prepare(oldNodes, seed, matches);
      Rearrange(oldNodes, seed, matches, rows, isNew, plan);
      MadeStays(plan, dom, bound);
    }

    /** From here on, what is made comes after everything that holds something. */
    ghost method Raise()
      requires Valid()
      modifies this`bound
      ensures Valid() && bound == nextId
    {
      bound := nextId;
    }

    /** Takes the rows without an item off the tree. */
    method Clear(oldNodes: seq<Id>, matches: seq<int>)
      requires Valid() && Low(dom, oldNodes, bound)
      modifies this`dom, this`dirty, this`refusals
      ensures Valid() && dom.nodes == old(dom.nodes) && old(refusals) <= refusals
      ensures Touches(old(dom), dom, dirty) && old(dirty) <= dirty
      ensures refusals == old(refusals) ==> Dropped(old(dom), dom, Unmatched(oldNodes, Used(matches), |oldNodes|))
      ensures Identity(matches, |oldNodes|) ==> Marks() == old(Marks())
      ensures Pruned(old(dom), dom, bound)
    {
      IdentityUses(matches, |oldNodes|);
      RemoveUnmatched(oldNodes, Used(matches));
    }

    /** Takes the rows without an item off the tree and puts the others where they belong. */
    method Rearrange(oldNodes: seq<Id>, seed: Id, matches: seq<int>, rows: seq<Id>, isNew: seq<bool>, ghost plan: Plan)
      requires Valid() && (forall n :: n in rows ==> n in dom.nodes) && AreRows(dom, tokens, oldNodes)
      requires up.Keys <= plan.before.nodes.Keys
      requires |isNew| == |rows| == |matches| && forall i :: 0 <= i < |rows| ==> isNew[i] == (matches[i] < 0)
      requires plan.oldNodes == oldNodes && plan.seed == seed && plan.matches == matches && plan.rows == rows && plan.grew == dom && Planned(plan, tokens)
      requires NewFrom(plan, bound)
      requires oldNodes == [] ==> seed in dom.parent
      modifies this`dom, this`dirty, this`refusals
      ensures Valid() && old(refusals) <= refusals && dom.nodes == old(dom.nodes)
      ensures Touches(plan.before, dom, dirty) && old(dirty) <= dirty && Still(plan.grew, dom, bound)
      ensures refusals == old(refusals) ==> Outcome(plan, dom, tokens)
      ensures Identity(matches, |oldNodes|) ==> Marks() == old(Marks())
    {
      var parent, anchorIdx, contiguous := FindPlace(oldNodes, seed);
      PlannedLow(plan, tokens, bound, nextId);
      Clear(oldNodes, matches);
      ghost var before, marked := dom, dirty;
      Place(rows, isNew, parent, anchorIdx, contiguous, plan, refusals == old(refusals));
      TouchesThrough(plan, before, dom, marked, dirty);
    }

    /** What a write leaves to see. */
    ghost function Marks(): Marks
      reads this
    {
      (dom, dirty, cloned, refusals)
    }

    /** Makes the rows, from a template when the list grew. */
    method Prepare(oldNodes: seq<Id>, seed: Id, matches: seq<int>) returns (rows: seq<Id>, isNew: seq<bool>, ghost plan: Plan)
      requires Valid() && AreRows(dom, tokens, oldNodes)
      requires forall i :: 0 <= i < |matches| ==> matches[i] < |oldNodes| && (matches[i] < 0 ==> |matches| > |oldNodes|)
      requires forall i, j :: 0 <= i < j < |matches| && matches[i] >= 0 ==> matches[i] != matches[j]
      requires oldNodes == [] ==> seed in Shown(dom, tokens)
      modifies this`dom, this`cloned, this`nextId, this`dirty, this`bound
      ensures Valid() && Grew(old(dom), dom) && plan == Plan(old(dom), dom, oldNodes, seed, matches, rows) && Planned(plan, tokens)
      ensures AreRows(dom, tokens, oldNodes) && old(dirty) <= dirty && NewFrom(plan, bound)
      ensures |rows| == |isNew| == |matches| && (forall i :: 0 <= i < |matches| ==> isNew[i] == (matches[i] < 0))
      ensures forall i :: 0 <= i < |matches| ==> if matches[i] >= 0 then rows[i] == oldNodes[matches[i]] else rows[i] !in old(dom.nodes)
      ensures forall n :: n in rows ==> n in dom.nodes
      ensures Copies(old(dom), dom, tokens, oldNodes, seed, matches, rows)
      ensures Identity(matches, |oldNodes|) ==> rows == oldNodes && Marks() == old(Marks())
    {
      Raise();
      ghost var m;
      rows, isNew, m := MakeAll(oldNodes, seed, matches);
      plan := Plan(m.before, dom, oldNodes, seed, matches, rows);
      MakePlan(m, dom, tokens, rows, isNew);
      PlanHolds(plan, tokens);
      if Identity(matches, |oldNodes|) {
        SameRows(oldNodes, matches, rows);
      }
    }

    method MakeAll(oldNodes: seq<Id>, seed: Id, matches: seq<int>) returns (rows: seq<Id>, isNew: seq<bool>, ghost m: Maker)
      requires Valid() && AreRows(dom, tokens, oldNodes)
      requires forall i :: 0 <= i < |matches| ==> matches[i] < |oldNodes| && (matches[i] < 0 ==> |matches| > |oldNodes|)
      requires forall i, j :: 0 <= i < j < |matches| && matches[i] >= 0 ==> matches[i] != matches[j]
      requires oldNodes == [] ==> seed in Shown(dom, tokens)
      modifies this`dom, this`cloned, this`nextId, this`dirty
      ensures Valid() && old(dirty) <= dirty && WellMatched(m, tokens) && Making(m, dom, tokens, rows, isNew) && |rows| == |matches|
      ensures m.Maker? && m == Maker(old(dom), oldNodes, seed, matches, m.template, old(nextId))
      ensures |matches| <= |oldNodes| ==> Marks() == old(Marks())
    {
      var template: Option<Id> := None;
      NothingGrew(dom);
      AllKnown(dom, tokens, oldNodes);
      if |matches| > |oldNodes| {
        var t := MakeTemplate(if |oldNodes| > 0 then oldNodes[0] else seed);
        template := Some(t);
      }
      m := Maker(old(dom), oldNodes, seed, matches, template, old(nextId));
      MakingStarts(m, dom, tokens);
      rows, isNew := MakeRows(oldNodes, template, matches, m);
    }

    /** Puts the rows where they belong, once those without an item are off the tree. */
    method Place(rows: seq<Id>, isNew: seq<bool>, parent: Id, anchorIdx: nat, contiguous: bool, ghost plan: Plan, ghost ready: bool)
      requires Valid() && plan.rows == rows && (forall n :: n in rows ==> n in dom.nodes)
      requires |isNew| == |rows| == |plan.matches| && forall i :: 0 <= i < |rows| ==> isNew[i] == (plan.matches[i] < 0)
      requires Planned(plan, tokens) && Located(plan, tokens, parent, anchorIdx, contiguous)
      requires up.Keys <= plan.before.nodes.Keys && Homed(plan.grew.parent, up) && parent < bound && NewFrom(plan, bound) && Low(dom, rows, bound)
      requires ready ==> Dropped(plan.grew, dom, Gone(plan))
      modifies this`dom, this`dirty
      ensures Valid() && dom.nodes == old(dom.nodes) && Touches(old(dom), dom, dirty) && old(dirty) <= dirty && Still(old(dom), dom, bound)
      ensures ready ==> Outcome(plan, dom, tokens)
      ensures ready && Identity(plan.matches, |plan.oldNodes|) ==> dom == old(dom) && dirty == old(dirty)
    {
      if contiguous {
        PlaceInRun(rows, parent, anchorIdx, plan, ready);
      } else {
        PlaceApart(rows, isNew, parent, anchorIdx, plan, ready);
      }
    }

    method PlaceInRun(rows: seq<Id>, parent: Id, anchorIdx: nat, ghost plan: Plan, ghost ready: bool)
      requires Valid() && plan.rows == rows && (forall n :: n in rows ==> n in dom.nodes)
      requires Planned(plan, tokens) && Located(plan, tokens, parent, anchorIdx, true)
      requires up.Keys <= plan.before.nodes.Keys && Homed(plan.grew.parent, up) && parent < bound && NewFrom(plan, bound) && Low(dom, rows, bound)
      requires ready ==> Dropped(plan.grew, dom, Gone(plan))
      modifies this`dom, this`dirty
      ensures Valid() && dom.nodes == old(dom.nodes) && Touches(old(dom), dom, dirty) && old(dirty) <= dirty && Still(old(dom), dom, bound)
      ensures ready ==> Outcome(plan, dom, tokens)
      ensures ready && Identity(plan.matches, |plan.oldNodes|) ==> dom == old(dom) && dirty == old(dirty)
    {
      RowsAtHome(plan, tokens, parent, anchorIdx, up, bound);
      ghost var run, line := Unknown, [];
      if ready {
        run, line := StartRun(plan, dom, tokens, parent, anchorIdx);
      }
      PlaceRun(parent, rows, anchorIdx, run, line);
      if ready {
        FinishRun(plan, old(dom), dom, tokens, parent, anchorIdx, run);
      }
    }

    method PlaceApart(rows: seq<Id>, isNew: seq<bool>, parent: Id, anchorIdx: nat, ghost plan: Plan, ghost ready: bool)
      requires Valid() && plan.rows == rows && (forall n :: n in rows ==> n in dom.nodes)
      requires |isNew| == |rows| == |plan.matches| && forall i :: 0 <= i < |rows| ==> isNew[i] == (plan.matches[i] < 0)
      requires Planned(plan, tokens) && Located(plan, tokens, parent, anchorIdx, false)
      requires up.Keys <= plan.before.nodes.Keys && parent < bound && NewFrom(plan, bound) && Low(dom, rows, bound)
      requires ready ==> Dropped(plan.grew, dom, Gone(plan))
      modifies this`dom, this`dirty
      ensures Valid() && dom.nodes == old(dom.nodes) && Touches(old(dom), dom, dirty) && old(dirty) <= dirty && Still(old(dom), dom, bound)
      ensures ready ==> Outcome(plan, dom, tokens)
      ensures ready && Identity(plan.matches, |plan.oldNodes|) ==> dom == old(dom) && dirty == old(dirty)
    {
      NewAreNotOld(plan, tokens);
      if ready {
        StartGrowth(plan, dom, tokens, parent, anchorIdx);
      }
      PlaceGrown(rows, isNew, parent, anchorIdx, if ready then GrowthOf(plan, dom) else NoGrowth);
      if ready {
        FinishGrowth(plan, old(dom), dom, tokens, parent, anchorIdx);
      }
    }
  }
}
