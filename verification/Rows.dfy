/**
 Moving a list's rows about: where an inserted node lands among the children the data API counts, and
 what a run of moves, removals and insertions adds up to (internal/dataapi/listdiff.go).
 */
module Rows {
  import opened PageTree
  import opened Sequences
  import opened Dom
  import opened Values

  /** Where a node that goes before its parent's counted child `index` is put, once it is off the tree. */
  ghost predicate Lands(ks: seq<Id>, shown: set<Id>, index: nat, at: nat) {
    && at <= |ks| && index <= |Kept(ks, shown)|
    && Kept(ks[..at], shown) == Kept(ks, shown)[..index] && Kept(ks[at..], shown) == Kept(ks, shown)[index..]
  }

  lemma {:induction false} LandsBefore(ks: seq<Id>, shown: set<Id>, index: nat, at: nat)
    requires NoRepeats(ks) && at < |ks| && index < |Kept(ks, shown)| && ks[at] == Kept(ks, shown)[index]
    ensures Lands(ks, shown, index, at)
  {
    var before, x, after := ks[..at], ks[at], ks[at + 1..];
    KeptMembers(ks, shown);
    KeptDistinct(ks, shown);
    assert x in Kept(ks, shown);
    assert ks == before + [x] + after && ks[at..] == [x] + after;
    KeptAmid(before, x, after, shown);
    KeptConcat([x], after, shown);
    KeptOne(x, shown);
    SoleIndex(Kept(ks, shown), index, Kept(before, shown), x, Kept(after, shown));
  }

  lemma {:induction false} SoleIndex(xs: seq<Id>, index: nat, a: seq<Id>, x: Id, b: seq<Id>)
    requires NoRepeats(xs) && xs == a + [x] + b && index < |xs| && xs[index] == x
    ensures index == |a| && a == xs[..index] && [x] + b == xs[index..]
  {
    assert xs[|a|] == x;
  }

  lemma {:induction false} LandsAtEnd(ks: seq<Id>, shown: set<Id>, at: nat)
    requires at <= |ks| && forall x :: x in ks[at..] ==> x !in shown
    ensures Lands(ks, shown, |Kept(ks, shown)|, at)
  {
    assert ks == ks[..at] + ks[at..];
    KeptConcat(ks[..at], ks[at..], shown);
    KeptNone(ks[at..], shown);
  }

  lemma {:induction false} LandedShows(ks: seq<Id>, shown: set<Id>, index: nat, at: nat, n: Id)
    requires Lands(ks, shown, index, at) && n in shown
    ensures var kept := Kept(ks, shown); Kept(ks[..at] + [n] + ks[at..], shown) == kept[..index] + [n] + kept[index..]
  {
    KeptAmid(ks[..at], n, ks[at..], shown);
  }

  lemma {:induction false} LandedHides(before: seq<Id>, after: seq<Id>, rest: set<Id>, n: Id)
    requires n !in rest
    ensures Kept(before + [n] + after, rest) == Kept(before + after, rest)
  {
    KeptAmid(before, n, after, rest);
    KeptConcat(before, after, rest);
  }

  lemma {:induction false} NothingShownAfter(ks: seq<Id>, shown: set<Id>, i: nat)
    requires NoRepeats(ks) && i < |ks|
    requires var kept := Kept(ks, shown); kept != [] && ks[i] == kept[|kept| - 1]
    ensures forall x :: x in ks[i + 1..] ==> x !in shown
  {
    var kept := Kept(ks, shown);
    var before, x, after := ks[..i], ks[i], ks[i + 1..];
    KeptMembers(ks, shown);
    KeptDistinct(ks, shown);
    assert x in kept;
    assert ks == before + [x] + after;
    KeptAmid(before, x, after, shown);
    SoleIndex(kept, |kept| - 1, Kept(before, shown), x, Kept(after, shown));
    KeptMembers(after, shown);
  }

  /** The node to insert in front of: counted among element children, no-data ones stepped over. */
  function AnchorFor(dom: Dom, tokens: string -> set<string>, p: Id, index: nat): Option<Id> {
    var all := ElementChildren(dom, p);
    if !AnyNoData(dom, tokens, all) then
      if index < |all| then Some(all[index]) else None
    else
      var content := Kept(all, Shown(dom, tokens));
      if index < |content| then Some(content[index])
      else if |content| > 0 then NextSibling(dom, content[|content| - 1])
      else if |all| > 0 then Some(all[0])
      else None
  }

  /** Where it goes once the node itself is off the tree: before the anchor, or last. */
  function PlaceOf(off: Dom, p: Id, anchor: Option<Id>): (at: nat)
    ensures at <= |Kids(off, p)|
  {
    if anchor.Some? && anchor.value in off.parent && off.parent[anchor.value] == p && anchor.value in Kids(off, p)
    then IndexOf(Kids(off, p), anchor.value)
    else |Kids(off, p)|
  }

  lemma {:induction false} OffThePage(dom: Dom, tokens: string -> set<string>, p: Id, n: Id)
    requires Sound(dom)
    ensures var off := Detached(dom, n);
      && Kids(off, p) == Without(Kids(dom, p), n)
      && ContentChildren(off, tokens, p) == Without(ContentChildren(dom, tokens, p), n)
      && NoRepeats(Kids(off, p))
  {
    DetachedSound(dom, n);
    if n !in Kids(dom, p) {
      WithoutAbsent(Kids(dom, p), n);
    }
    KeptWithout(Kids(dom, p), Shown(dom, tokens), n);
    WithoutDistinct(Kids(dom, p), n);
  }

  lemma {:induction false} PrefixWithout(xs: seq<Id>, n: Id, index: nat)
    requires index < |xs| && n !in xs[..index + 1]
    ensures index < |Without(xs, n)| && Without(xs, n)[index] == xs[index] && Without(xs, n)[..index] == xs[..index]
  {
    assert xs == xs[..index + 1] + xs[index + 1..];
    WithoutConcat(xs[..index + 1], xs[index + 1..], n);
    WithoutAbsent(xs[..index + 1], n);
  }

  lemma {:induction false} AnchorIs(dom: Dom, tokens: string -> set<string>, p: Id, index: nat)
    ensures var v, anchor := ContentChildren(dom, tokens, p), AnchorFor(dom, tokens, p, index);
      && (index < |v| ==> anchor == Some(v[index]))
      && (index == |v| > 0 ==> anchor == None || anchor == NextSibling(dom, v[|v| - 1]))
  {
    assert AdapterChildren(dom, tokens, p) == ContentChildren(dom, tokens, p);
    KeptTwice(Kids(dom, p), AllElements(dom), Shown(dom, tokens));
  }

  lemma {:induction false} IndexIs(xs: seq<Id>, i: nat)
    requires NoRepeats(xs) && i < |xs|
    ensures IndexOf(xs, xs[i]) == i
  {
  }

  /** Before the counted child `index`, once the node itself is off the tree. */
  lemma {:induction false} AnchorLands(dom: Dom, tokens: string -> set<string>, p: Id, n: Id, index: nat)
    requires Sound(dom)
    requires var v := ContentChildren(dom, tokens, p); index < |v| && n !in v[..index + 1]
    ensures var off, anchor := Detached(dom, n), AnchorFor(dom, tokens, p, index);
      anchor != Some(n) && Lands(Kids(off, p), Shown(dom, tokens), index, PlaceOf(off, p, anchor))
  {
    var v, off := ContentChildren(dom, tokens, p), Detached(dom, n);
    AnchorIs(dom, tokens, p, index);
    OffThePage(dom, tokens, p, n);
    PrefixWithout(v, n, index);
    AnchorStays(dom, tokens, p, n, v[index]);
    assert v[index] == v[..index + 1][index];
    LandsBefore(Kids(off, p), Shown(dom, tokens), index, IndexOf(Kids(off, p), v[index]));
  }

  lemma {:induction false} AnchorStays(dom: Dom, tokens: string -> set<string>, p: Id, n: Id, x: Id)
    requires Sound(dom) && x in ContentChildren(dom, tokens, p)
    ensures x in Kids(dom, p) && dom.parent[x] == p
    ensures x != n ==> var off := Detached(dom, n); x in off.parent && off.parent[x] == p && x in Kids(off, p)
  {
    KeptMembers(Kids(dom, p), Shown(dom, tokens));
    OffThePage(dom, tokens, p, n);
    WithoutMembers(Kids(dom, p), n);
  }

  /** Past the last counted child, it goes right behind it. */
  lemma {:induction false} EndLands(dom: Dom, tokens: string -> set<string>, p: Id, n: Id)
    requires Sound(dom) && n in Shown(dom, tokens) && n !in ContentChildren(dom, tokens, p)
    ensures var v, off := ContentChildren(dom, tokens, p), Detached(dom, n);
      var anchor := AnchorFor(dom, tokens, p, |v|);
      anchor != Some(n) && Lands(Kids(off, p), Shown(dom, tokens), |v|, PlaceOf(off, p, anchor))
  {
    var ks, v, shown := Kids(dom, p), ContentChildren(dom, tokens, p), Shown(dom, tokens);
    var off, anchor := Detached(dom, n), AnchorFor(dom, tokens, p, |v|);
    NotAChild(dom, tokens, p, n);
    if v == [] {
      KeptMembers(ks, shown);
      AnchorAmong(dom, tokens, p);
      LandsAtEnd(ks, shown, PlaceOf(off, p, anchor));
    } else {
      BehindLast(dom, tokens, p, n);
    }
  }

  lemma {:induction false} NotAChild(dom: Dom, tokens: string -> set<string>, p: Id, n: Id)
    requires Sound(dom) && n in Shown(dom, tokens) && n !in ContentChildren(dom, tokens, p)
    ensures n !in Kids(dom, p) && Kids(Detached(dom, n), p) == Kids(dom, p)
  {
    KeptMembers(Kids(dom, p), Shown(dom, tokens));
    OffThePage(dom, tokens, p, n);
    WithoutAbsent(Kids(dom, p), n);
  }

  lemma {:induction false} AnchorAmong(dom: Dom, tokens: string -> set<string>, p: Id)
    requires ContentChildren(dom, tokens, p) == []
    ensures var anchor := AnchorFor(dom, tokens, p, 0); anchor.Some? ==> anchor.value in Kids(dom, p)
  {
    KeptTwice(Kids(dom, p), AllElements(dom), Shown(dom, tokens));
    KeptMembers(Kids(dom, p), AllElements(dom));
  }

  lemma {:induction false} BehindLast(dom: Dom, tokens: string -> set<string>, p: Id, n: Id)
    requires Sound(dom) && n !in Kids(dom, p) && Kids(Detached(dom, n), p) == Kids(dom, p)
    requires ContentChildren(dom, tokens, p) != []
    ensures var v, off := ContentChildren(dom, tokens, p), Detached(dom, n);
      var anchor := AnchorFor(dom, tokens, p, |v|);
      anchor != Some(n) && Lands(Kids(off, p), Shown(dom, tokens), |v|, PlaceOf(off, p, anchor))
  {
    var ks, v, shown := Kids(dom, p), ContentChildren(dom, tokens, p), Shown(dom, tokens);
    var off, anchor := Detached(dom, n), AnchorFor(dom, tokens, p, |v|);
    AnchorIs(dom, tokens, p, |v|);
    if anchor.Some? {
      var last := v[|v| - 1];
      AnchorStays(dom, tokens, p, n, last);
      var i := IndexOf(ks, last);
      NothingShownAfter(ks, shown, i);
      IndexIs(ks, i + 1);
      DetachedSound(dom, n);
    }
    LandsAtEnd(ks, shown, PlaceOf(off, p, anchor));
  }

  /** The tree once `n` has been put before its new parent's counted child `index`. */
  ghost function Inserted(dom: Dom, tokens: string -> set<string>, p: Id, n: Id, index: nat): Dom
    requires Sound(dom)
  {
    var anchor := AnchorFor(dom, tokens, p, index);
    if anchor == Some(n) then dom
    else Placed(Detached(dom, n), p, n, PlaceOf(Detached(dom, n), p, anchor))
  }

  /** Apart from the moved node, and where it lands, nothing is different. */
  ghost predicate OnlyMoved(before: Dom, after: Dom, tokens: string -> set<string>, p: Id, n: Id) {
    && Sound(after) && after.nodes == before.nodes
    && Others(after, tokens, p) == Others(before, tokens, p)
    && (forall q :: q != p ==> Kids(after, q) == Without(Kids(before, q), n))
    && n in after.parent && after.parent[n] == p
    && (forall c :: c != n ==> (c in after.parent <==> c in before.parent) && (c in after.parent ==> after.parent[c] == before.parent[c]))
  }

  /** `n` is not already among the first counted children of `p`, nor the next one. */
  ghost predicate CanLand(dom: Dom, tokens: string -> set<string>, p: Id, n: Id, index: nat) {
    n in Shown(dom, tokens) && Fits(ContentChildren(dom, tokens, p), n, index)
  }

  ghost predicate Fits(line: seq<Id>, n: Id, index: nat) {
    index <= |line| && n !in line[..index] && (index < |line| ==> line[index] != n)
  }

  /** `line` with `n` taken from wherever it is and put at `index`. */
  ghost function Shifted(line: seq<Id>, n: Id, index: nat): seq<Id> {
    var off := Without(line, n);
    if index <= |off| then off[..index] + [n] + off[index..] else off
  }

  /** The node became the counted child `index`, and the other counted children kept their order. */
  ghost predicate Landed(before: Dom, after: Dom, tokens: string -> set<string>, p: Id, n: Id, index: nat) {
    && OnlyMoved(before, after, tokens, p, n)
    && ContentChildren(after, tokens, p) == Shifted(ContentChildren(before, tokens, p), n, index)
  }

  lemma {:induction false} InsertedShows(dom: Dom, tokens: string -> set<string>, p: Id, n: Id, index: nat)
    requires Sound(dom) && CanLand(dom, tokens, p, n, index)
    ensures Landed(dom, Inserted(dom, tokens, p, n, index), tokens, p, n, index)
  {
    var v := ContentChildren(dom, tokens, p);
    if index < |v| {
      assert v[..index + 1] == v[..index] + [v[index]];
      AnchorLands(dom, tokens, p, n, index);
    } else {
      assert v[..index] == v;
      EndLands(dom, tokens, p, n);
    }
    LandedAt(dom, tokens, p, n, index, PlaceOf(Detached(dom, n), p, AnchorFor(dom, tokens, p, index)));
  }

  lemma {:induction false} LandedAt(dom: Dom, tokens: string -> set<string>, p: Id, n: Id, index: nat, at: nat)
    requires Sound(dom) && n in Shown(dom, tokens)
    requires Lands(Kids(Detached(dom, n), p), Shown(dom, tokens), index, at)
    ensures Landed(dom, Placed(Detached(dom, n), p, n, at), tokens, p, n, index)
  {
    var off, ks := Detached(dom, n), Kids(Detached(dom, n), p);
    DetachedSound(dom, n);
    OffThePage(dom, tokens, p, n);
    LandedShows(ks, Shown(dom, tokens), index, at, n);
    HiddenStay(Kids(dom, p), ks, dom.nodes.Keys - Shown(dom, tokens), at, n);
    PlacedMoves(dom, off, tokens, p, n, at);
  }

  lemma {:induction false} PlacedMoves(dom: Dom, off: Dom, tokens: string -> set<string>, p: Id, n: Id, at: nat)
    requires Sound(dom) && off == Detached(dom, n) && n in dom.nodes
    requires Sound(off) && n !in off.parent && at <= |Kids(off, p)|
    requires var ks := Kids(off, p); Kept(ks[..at] + [n] + ks[at..], dom.nodes.Keys - Shown(dom, tokens)) == Others(dom, tokens, p)
    ensures OnlyMoved(dom, Placed(off, p, n, at), tokens, p, n)
  {
    PlacedSound(off, p, n, at);
    forall q | q != p ensures Kids(Placed(off, p, n, at), q) == Without(Kids(dom, q), n) {
      OffThePage(dom, tokens, q, n);
    }
  }

  lemma {:induction false} HiddenStay(ks: seq<Id>, off: seq<Id>, rest: set<Id>, at: nat, n: Id)
    requires off == Without(ks, n) && at <= |off| && n !in rest
    ensures Kept(off[..at] + [n] + off[at..], rest) == Kept(ks, rest)
  {
    LandedHides(off[..at], off[at..], rest, n);
    assert off[..at] + off[at..] == off;
    KeptWithout(ks, rest, n);
    KeptMembers(ks, rest);
    WithoutAbsent(Kept(ks, rest), n);
  }

  // ----- putting a run in order -----

  /** The counted children once the first `i` rows are in place. */
  ghost function RunAt(prefix: seq<Id>, rows: seq<Id>, i: nat, rest: seq<Id>, suffix: seq<Id>): seq<Id>
    requires i <= |rows|
  {
    (prefix + rows[..i]) + StillToPlace(rows, i, rest, suffix)
  }

  ghost function StillToPlace(rows: seq<Id>, i: nat, rest: seq<Id>, suffix: seq<Id>): seq<Id>
    requires i <= |rows|
  {
    Kept(rest, Elements(rows[i..])) + suffix
  }

  lemma {:induction false} NextRow(prefix: seq<Id>, rows: seq<Id>, i: nat, rest: seq<Id>, suffix: seq<Id>)
    requires i < |rows| && NoRepeats(rows) && NoRepeats(rest)
    requires rows[i] !in prefix && rows[i] !in suffix
    ensures var v, n, index := RunAt(prefix, rows, i, rest, suffix), rows[i], |prefix| + i;
      && index <= |v| && n !in v[..index]
      && (index < |v| && v[index] == n ==> Shifted(v, n, index) == v)
      && Shifted(v, n, index) == RunAt(prefix, rows, i + 1, rest, suffix)
  {
    var n, placed := rows[i], prefix + rows[..i];
    var tail, after := StillToPlace(rows, i, rest, suffix), StillToPlace(rows, i + 1, rest, suffix);
    TailShrinks(rows, i, rest, suffix);
    RowOut(placed, tail, n);
    assert rows[..i + 1] == rows[..i] + [n];
    Assoc(prefix, rows[..i], [n]);
    Assoc(placed, [n], after);
  }

  lemma {:induction false} TailShrinks(rows: seq<Id>, i: nat, rest: seq<Id>, suffix: seq<Id>)
    requires i < |rows| && NoRepeats(rows) && NoRepeats(rest) && rows[i] !in suffix
    ensures var n, tail, after := rows[i], StillToPlace(rows, i, rest, suffix), StillToPlace(rows, i + 1, rest, suffix);
      && Without(tail, n) == after
      && (tail != [] && tail[0] == n ==> tail == [n] + after)
  {
    var n, left := rows[i], Kept(rest, Elements(rows[i..]));
    assert rows[i..] == [n] + rows[i + 1..];
    assert n !in rows[i + 1..];
    assert Elements(rows[i + 1..]) == Elements(rows[i..]) - {n};
    KeptLess(rest, Elements(rows[i..]), n);
    KeptDistinct(rest, Elements(rows[i..]));
    LeftOut(left, suffix, n);
  }

  lemma {:induction false} LeftOut(left: seq<Id>, suffix: seq<Id>, n: Id)
    requires NoRepeats(left) && n !in suffix
    ensures Without(left + suffix, n) == Without(left, n) + suffix
    ensures left + suffix != [] && (left + suffix)[0] == n ==> left + suffix == [n] + (Without(left, n) + suffix)
  {
    WithoutConcat(left, suffix, n);
    WithoutAbsent(suffix, n);
    if left != [] && left[0] == n {
      HeadOut(left);
      Assoc([n], Without(left, n), suffix);
    }
  }

  lemma {:induction false} RowOut(placed: seq<Id>, tail: seq<Id>, n: Id)
    requires n !in placed
    ensures var v, rest := placed + tail, Without(placed + tail, n);
      && v[..|placed|] == placed && rest == placed + Without(tail, n)
      && rest[..|placed|] == placed && rest[|placed|..] == Without(tail, n)
      && (|placed| < |v| && v[|placed|] == n ==> tail != [] && tail[0] == n)
  {
    WithoutConcat(placed, tail, n);
    WithoutAbsent(placed, n);
  }

  // ----- rows that form a run -----

  /** The rows are the counted children of `p` from position `a` on. */
  ghost predicate IsRun(dom: Dom, tokens: string -> set<string>, p: Id, rows: seq<Id>, a: nat) {
    var v := ContentChildren(dom, tokens, p);
    a + |rows| <= |v| && v[a..a + |rows|] == rows
  }

  /** Counted elements of the tree, no two the same, siblings in page order. */
  ghost predicate AreRows(dom: Dom, tokens: string -> set<string>, rows: seq<Id>) {
    && NoRepeats(rows)
    && (forall i :: 0 <= i < |rows| ==> rows[i] in Shown(dom, tokens) && rows[i] in dom.parent)
    && forall i, j :: 0 <= i < j < |rows| && dom.parent[rows[i]] == dom.parent[rows[j]] ==>
         Position(dom, tokens, rows[i]) < Position(dom, tokens, rows[j])
  }

  ghost function Position(dom: Dom, tokens: string -> set<string>, n: Id): int
    requires n in dom.parent
  {
    IndexOf(ContentChildren(dom, tokens, dom.parent[n]), n)
  }

  lemma {:induction false} RowIsCounted(dom: Dom, tokens: string -> set<string>, n: Id)
    requires Sound(dom) && n in Shown(dom, tokens) && n in dom.parent
    ensures n in ContentChildren(dom, tokens, dom.parent[n])
    ensures var v, i := ContentChildren(dom, tokens, dom.parent[n]), Position(dom, tokens, n); 0 <= i < |v| && v[i] == n
  {
    KeptMembers(Kids(dom, dom.parent[n]), Shown(dom, tokens));
  }

  ghost predicate Climbing(at: seq<int>) {
    forall i, j :: 0 <= i < j < |at| ==> at[i] < at[j]
  }

  lemma {:induction false} ClimbsAtLeast(at: seq<int>, i: nat, j: nat)
    requires Climbing(at) && i <= j < |at|
    ensures at[j] - at[i] >= j - i
    decreases j
  {
    if i < j {
      ClimbsAtLeast(at, i, j - 1);
    }
  }

  lemma {:induction false} TightClimb(at: seq<int>, k: nat)
    requires Climbing(at) && k < |at| && at[|at| - 1] - at[0] == |at| - 1
    ensures at[k] == at[0] + k
  {
    ClimbsAtLeast(at, 0, k);
    ClimbsAtLeast(at, k, |at| - 1);
  }

  /** Where each row stands among the counted children of `p`. */
  ghost predicate StandAt(dom: Dom, tokens: string -> set<string>, p: Id, rows: seq<Id>, at: seq<int>) {
    |at| == |rows| && forall k :: 0 <= k < |rows| ==> at[k] == IndexOf(ContentChildren(dom, tokens, p), rows[k]) >= 0
  }

  lemma {:induction false} RowsClimb(dom: Dom, tokens: string -> set<string>, p: Id, rows: seq<Id>, at: seq<int>)
    requires Sound(dom) && AreRows(dom, tokens, rows) && StandAt(dom, tokens, p, rows, at)
    ensures Climbing(at)
  {
    var v := ContentChildren(dom, tokens, p);
    KeptMembers(Kids(dom, p), Shown(dom, tokens));
    forall i, j | 0 <= i < j < |at| ensures at[i] < at[j] {
      assert rows[i] in v && rows[j] in v;
      assert Position(dom, tokens, rows[i]) < Position(dom, tokens, rows[j]);
    }
  }

  lemma {:induction false} TightIsRun(dom: Dom, tokens: string -> set<string>, p: Id, rows: seq<Id>, at: seq<int>)
    requires StandAt(dom, tokens, p, rows, at) && Climbing(at) && rows != []
    requires at[|at| - 1] - at[0] == |at| - 1
    ensures IsRun(dom, tokens, p, rows, at[0])
  {
    var v := ContentChildren(dom, tokens, p);
    forall k | 0 <= k < |rows| ensures at[0] + k < |v| && v[at[0] + k] == rows[k] {
      TightClimb(at, k);
    }
    assert v[at[0]..at[0] + |rows|] == rows;
  }

  lemma {:induction false} RunIsTight(dom: Dom, tokens: string -> set<string>, p: Id, rows: seq<Id>, at: seq<int>)
    requires Sound(dom) && StandAt(dom, tokens, p, rows, at) && rows != []
    requires IsRun(dom, tokens, p, rows, at[0])
    ensures at[|at| - 1] - at[0] == |at| - 1
  {
    var v, last := ContentChildren(dom, tokens, p), |rows| - 1;
    KeptDistinct(Kids(dom, p), Shown(dom, tokens));
    assert v[at[0]..at[0] + |rows|][last] == v[at[0] + last];
    IndexIs(v, at[0] + last);
  }

  /** The rows form a run under the first one's parent. */
  ghost predicate Contiguous(dom: Dom, tokens: string -> set<string>, rows: seq<Id>)
    requires AreRows(dom, tokens, rows)
  {
    |rows| <= 1 || (Position(dom, tokens, rows[0]) >= 0 && IsRun(dom, tokens, dom.parent[rows[0]], rows, Position(dom, tokens, rows[0])))
  }

  /** The rows fill the positions between the first and the last exactly when they form a run. */
  lemma {:induction false} RunWhenTight(dom: Dom, tokens: string -> set<string>, rows: seq<Id>, at: seq<int>)
    requires Sound(dom) && AreRows(dom, tokens, rows) && |rows| > 1
    requires StandAt(dom, tokens, dom.parent[rows[0]], rows, at)
    ensures at[|at| - 1] - at[0] == |at| - 1 <==> Contiguous(dom, tokens, rows)
  {
    var p := dom.parent[rows[0]];
    RowsClimb(dom, tokens, p, rows, at);
    if at[|at| - 1] - at[0] == |at| - 1 {
      TightIsRun(dom, tokens, p, rows, at);
    } else if Contiguous(dom, tokens, rows) {
      RunIsTight(dom, tokens, p, rows, at);
    }
  }

  lemma {:induction false} NotARun(dom: Dom, tokens: string -> set<string>, rows: seq<Id>)
    requires Sound(dom) && AreRows(dom, tokens, rows) && |rows| > 1
    requires exists h :: 0 <= h < |rows| && rows[h] !in ContentChildren(dom, tokens, dom.parent[rows[0]])
    ensures !Contiguous(dom, tokens, rows)
  {
    if Contiguous(dom, tokens, rows) {
      RunIsInside(dom, tokens, dom.parent[rows[0]], rows, Position(dom, tokens, rows[0]));
    }
  }

  lemma {:induction false} RunIsInside(dom: Dom, tokens: string -> set<string>, p: Id, rows: seq<Id>, a: nat)
    requires Sound(dom) && IsRun(dom, tokens, p, rows, a)
    ensures forall k :: 0 <= k < |rows| ==> rows[k] in ContentChildren(dom, tokens, p) && rows[k] in dom.parent && dom.parent[rows[k]] == p
  {
    var v := ContentChildren(dom, tokens, p);
    KeptMembers(Kids(dom, p), Shown(dom, tokens));
    forall k | 0 <= k < |rows| ensures rows[k] in v {
      assert rows[k] == v[a..a + |rows|][k] == v[a + k];
    }
  }

  /** What a run of rows is put in order between; nothing is known when a removal was refused. */
  datatype Run = Unknown | Run(before: Dom, prefix: seq<Id>, rest: seq<Id>, suffix: seq<Id>)

  /** Rows that can be put in order under `p`, between what stands before and after them. */
  ghost predicate Sortable(run: Run, tokens: string -> set<string>, p: Id, rows: seq<Id>) {
    match run
    case Unknown => false
    case Run(before, prefix, rest, suffix) =>
      && NoRepeats(rows) && NoRepeats(rest) && (forall n :: n in rest ==> n in rows)
      && forall n :: n in rows ==>
           n in Shown(before, tokens) && n !in prefix && n !in suffix && (n in before.parent ==> before.parent[n] == p)
  }

  /** `line` is what putting the first `i` rows in place makes of the counted children. */
  ghost predicate IsLine(run: Run, rows: seq<Id>, i: nat, line: seq<Id>) {
    match run
    case Unknown => false
    case Run(_, prefix, rest, suffix) => i <= |rows| && line == RunAt(prefix, rows, i, rest, suffix)
  }

  /** A row already in place changes nothing; any other can be put there. */
  ghost predicate RowGoes(run: Run, rows: seq<Id>, i: nat, line: seq<Id>) {
    match run
    case Unknown => false
    case Run(_, prefix, _, _) =>
      i < |rows| &&
      var n, index := rows[i], |prefix| + i;
      if IndexOf(line, n) == index then Shifted(line, n, index) == line else Fits(line, n, index)
  }

  lemma {:induction false} LineStarts(run: Run, tokens: string -> set<string>, p: Id, rows: seq<Id>)
    requires Sortable(run, tokens, p, rows)
    ensures IsLine(run, rows, 0, run.prefix + (run.rest + run.suffix))
  {
    LineBegins(run.prefix, rows, run.rest, run.suffix);
  }

  lemma {:induction false} LineGoesOn(run: Run, tokens: string -> set<string>, p: Id, rows: seq<Id>, i: nat, line: seq<Id>)
    requires Sortable(run, tokens, p, rows) && i < |rows| && IsLine(run, rows, i, line)
    ensures IsLine(run, rows, i + 1, Shifted(line, rows[i], |run.prefix| + i))
  {
    assert rows[i] in rows;
    NextRow(run.prefix, rows, i, run.rest, run.suffix);
  }

  lemma {:induction false} RowFits(run: Run, tokens: string -> set<string>, p: Id, rows: seq<Id>, i: nat, line: seq<Id>)
    requires Sortable(run, tokens, p, rows) && i < |rows| && IsLine(run, rows, i, line) && NoRepeats(line)
    ensures RowGoes(run, rows, i, line)
  {
    assert rows[i] in rows;
    NextRow(run.prefix, rows, i, run.rest, run.suffix);
    if |run.prefix| + i < |line| {
      IndexIs(line, |run.prefix| + i);
    }
  }

  lemma {:induction false} LineBegins(prefix: seq<Id>, rows: seq<Id>, rest: seq<Id>, suffix: seq<Id>)
    requires forall x :: x in rest ==> x in rows
    ensures RunAt(prefix, rows, 0, rest, suffix) == prefix + (rest + suffix)
  {
    assert rows[0..] == rows && rows[..0] == [];
    KeptAll(rest, Elements(rows[0..]));
    assert prefix + [] == prefix;
  }

  /** In the end the rows stand between their neighbours. */
  lemma {:induction false} LineEnds(run: Run, rows: seq<Id>, line: seq<Id>)
    requires IsLine(run, rows, |rows|, line)
    ensures line == run.prefix + rows + run.suffix
  {
    assert rows[..|rows|] == rows && rows[|rows|..] == [];
    KeptNone(run.rest, Elements(rows[|rows|..]));
  }

  /** Under `p` the counted children are `line`; apart from where the rows stand, nothing is different. */
  ghost predicate Placing(run: Run, dom: Dom, tokens: string -> set<string>, p: Id, rows: seq<Id>, line: seq<Id>) {
    match run
    case Unknown => false
    case Run(before, _, _, _) =>
      && Sound(dom) && dom.nodes == before.nodes
      && ContentChildren(dom, tokens, p) == line
      && Others(dom, tokens, p) == Others(before, tokens, p)
      && (forall q :: q != p ==> Kids(dom, q) == Kids(before, q))
      && (forall n :: n in rows && n in dom.parent ==> dom.parent[n] == p)
  }

  lemma {:induction false} RowMoves(run: Run, dom: Dom, after: Dom, tokens: string -> set<string>, p: Id, rows: seq<Id>, line: seq<Id>, n: Id, index: nat)
    requires Placing(run, dom, tokens, p, rows, line) && n in rows && Landed(dom, after, tokens, p, n, index)
    ensures Placing(run, after, tokens, p, rows, Shifted(line, n, index))
  {
    StillElsewhere(run.before, dom, after, tokens, p, n);
  }

  lemma {:induction false} StillElsewhere(before: Dom, dom: Dom, after: Dom, tokens: string -> set<string>, p: Id, n: Id)
    requires Sound(dom) && OnlyMoved(dom, after, tokens, p, n)
    requires n in dom.parent ==> dom.parent[n] == p
    requires forall q :: q != p ==> Kids(dom, q) == Kids(before, q)
    ensures forall q :: q != p ==> Kids(after, q) == Kids(before, q)
  {
    forall q | q != p ensures Kids(after, q) == Kids(before, q) {
      assert n !in Kids(dom, q);
      WithoutAbsent(Kids(dom, q), n);
    }
  }

  /** In a list already in order each row is where it belongs. */
  lemma {:induction false} NothingToPlace(run: Run, rows: seq<Id>, i: nat, line: seq<Id>)
    requires i < |rows| && run.Run? && run.rest == rows && IsLine(run, rows, 0, line) && NoRepeats(line)
    ensures IndexOf(line, rows[i]) == |run.prefix| + i
  {
    LineBegins(run.prefix, rows, rows, run.suffix);
    IndexIs(line, |run.prefix| + i);
  }

  // ----- removing rows -----

  /** Everything in `gone` is off the tree, and that is all that happened. */
  ghost predicate Dropped(before: Dom, after: Dom, gone: set<Id>) {
    && Sound(after) && after.nodes == before.nodes
    && (forall q :: Kids(after, q) == Kept(Kids(before, q), before.nodes.Keys - gone))
    && (forall c :: c in after.parent <==> c in before.parent && c !in gone)
    && (forall c :: c in after.parent ==> after.parent[c] == before.parent[c])
  }

  lemma {:induction false} NothingDropped(dom: Dom)
    requires Sound(dom)
    ensures Dropped(dom, dom, {})
  {
    forall q ensures Kids(dom, q) == Kept(Kids(dom, q), dom.nodes.Keys - {}) {
      KeptAll(Kids(dom, q), dom.nodes.Keys - {});
    }
  }

  lemma {:induction false} DropOne(before: Dom, mid: Dom, gone: set<Id>, n: Id)
    requires Dropped(before, mid, gone)
    ensures Dropped(before, Detached(mid, n), gone + {n})
  {
    var after := Detached(mid, n);
    DetachedSound(mid, n);
    forall q ensures Kids(after, q) == Kept(Kids(before, q), before.nodes.Keys - (gone + {n})) {
      KeptLess(Kids(before, q), before.nodes.Keys - gone, n);
      assert before.nodes.Keys - (gone + {n}) == before.nodes.Keys - gone - {n};
      if n !in Kids(mid, q) {
        WithoutAbsent(Kids(mid, q), n);
      }
    }
  }

  /** The counted children lose what is gone, the others lose nothing. */
  lemma {:induction false} DroppedShows(before: Dom, after: Dom, tokens: string -> set<string>, gone: set<Id>, q: Id)
    requires Sound(before) && Dropped(before, after, gone) && gone <= Shown(before, tokens)
    ensures ContentChildren(after, tokens, q) == Kept(ContentChildren(before, tokens, q), before.nodes.Keys - gone)
    ensures Others(after, tokens, q) == Others(before, tokens, q)
  {
    var ks, stay := Kids(before, q), before.nodes.Keys - gone;
    KeptInOrder(ks, stay, Shown(before, tokens));
    KeptInOrder(ks, stay, before.nodes.Keys - Shown(before, tokens));
    KeptMembers(ks, before.nodes.Keys - Shown(before, tokens));
    KeptAll(Others(before, tokens, q), stay);
  }

  // ----- rows that do not form a run -----

  /** `b` is the counted sibling right after `a`. */
  ghost predicate Follows(dom: Dom, tokens: string -> set<string>, a: Id, b: Id) {
    && a in dom.parent && b in dom.parent && dom.parent[a] == dom.parent[b]
    && After(ContentChildren(dom, tokens, dom.parent[a]), a, b)
  }

  ghost predicate After(v: seq<Id>, a: Id, b: Id) {
    exists t {:trigger v[t]} :: 0 <= t < |v| - 1 && v[t] == a && v[t + 1] == b
  }

  lemma {:induction false} StaysAfter(v: seq<Id>, k: nat, n: Id, a: Id, b: Id)
    requires k < |v| && After(v, a, b) && v[k] != a
    ensures After(v[..k + 1] + [n] + v[k + 1..], a, b)
  {
    var t :| 0 <= t < |v| - 1 && v[t] == a && v[t + 1] == b;
    var w := v[..k + 1] + [n] + v[k + 1..];
    if t < k {
      assert w[t] == a && w[t + 1] == b;
    } else {
      assert w[t + 1] == a && w[t + 2] == b;
    }
  }

  lemma {:induction false} ComesAfter(v: seq<Id>, k: nat, n: Id)
    requires k < |v|
    ensures After(v[..k + 1] + [n] + v[k + 1..], v[k], n)
  {
    var w := v[..k + 1] + [n] + v[k + 1..];
    assert w[k] == v[k] && w[k + 1] == n;
  }

  /** Apart from grown rows, `q` has the children it had. */
  ghost predicate SameButGrown(before: Dom, dom: Dom, tokens: string -> set<string>, grown: set<Id>, q: Id) {
    && Kept(ContentChildren(dom, tokens, q), before.nodes.Keys - grown) == ContentChildren(before, tokens, q)
    && Others(dom, tokens, q) == Others(before, tokens, q)
  }

  /** Apart from grown rows, every node has the children it had. */
  ghost predicate OnlyGrown(before: Dom, dom: Dom, tokens: string -> set<string>, grown: set<Id>) {
    Sound(dom) && dom.nodes == before.nodes && forall q :: SameButGrown(before, dom, tokens, grown, q)
  }

  /** The grown rows among the first `i` are on the tree, and so is every other row. */
  ghost predicate Hung(dom: Dom, rows: seq<Id>, grown: set<Id>, i: nat) {
    forall j :: 0 <= j < |rows| ==> (rows[j] in dom.parent <==> j < i || rows[j] !in grown)
  }

  /** Each grown row among the first `i` follows the row before it. */
  ghost predicate Strung(dom: Dom, tokens: string -> set<string>, rows: seq<Id>, grown: set<Id>, i: nat) {
    forall j {:trigger StandsBehind(dom, tokens, rows, j)} :: 0 < j < i && j < |rows| && rows[j] in grown ==> StandsBehind(dom, tokens, rows, j)
  }

  ghost predicate StandsBehind(dom: Dom, tokens: string -> set<string>, rows: seq<Id>, j: nat) {
    0 < j < |rows| && Follows(dom, tokens, rows[j - 1], rows[j])
  }

  lemma {:induction false} StringOver(dom: Dom, tokens: string -> set<string>, rows: seq<Id>, grown: set<Id>, i: nat)
    requires i < |rows| && rows[i] !in grown && Strung(dom, tokens, rows, grown, i)
    ensures Strung(dom, tokens, rows, grown, i + 1)
  {
  }

  lemma {:induction false} NothingGrown(dom: Dom, tokens: string -> set<string>, grown: set<Id>)
    requires Sound(dom) && forall n :: n in grown ==> n !in dom.parent
    ensures OnlyGrown(dom, dom, tokens, grown)
  {
    forall q ensures SameButGrown(dom, dom, tokens, grown, q) {
      KeptMembers(Kids(dom, q), Shown(dom, tokens));
      KeptAll(ContentChildren(dom, tokens, q), dom.nodes.Keys - grown);
    }
  }

  lemma {:induction false} HiddenWithin(v: seq<Id>, index: nat, n: Id, among: set<Id>)
    requires index <= |v| && n !in among
    ensures Kept(v[..index] + [n] + v[index..], among) == Kept(v, among)
  {
    var before, after := v[..index], v[index..];
    LandedHides(before, after, among, n);
    assert before + after == v;
  }

  lemma {:induction false} ElsewhereSame(dom: Dom, after: Dom, tokens: string -> set<string>, p: Id, n: Id, q: Id)
    requires Sound(dom) && n !in dom.parent && OnlyMoved(dom, after, tokens, p, n) && q != p
    ensures Kids(after, q) == Kids(dom, q)
  {
    assert n !in Kids(dom, q);
    WithoutAbsent(Kids(dom, q), n);
  }

  /** A grown row put at counted position `index` of `p` disturbs nothing. */
  lemma {:induction false} GrownLeavesRest(before: Dom, dom: Dom, after: Dom, tokens: string -> set<string>, grown: set<Id>, p: Id, n: Id, index: nat, q: Id)
    requires Sound(dom) && n in grown && n !in dom.parent && OnlyMoved(dom, after, tokens, p, n)
    requires SameButGrown(before, dom, tokens, grown, q)
    requires var v := ContentChildren(dom, tokens, p); index <= |v| && ContentChildren(after, tokens, p) == v[..index] + [n] + v[index..]
    ensures SameButGrown(before, after, tokens, grown, q)
  {
    if q != p {
      ElsewhereSame(dom, after, tokens, p, n, q);
    } else {
      HiddenWithin(ContentChildren(dom, tokens, p), index, n, before.nodes.Keys - grown);
    }
  }

  /** A node with no parent can go anywhere, and pushes nothing out of order. */
  lemma {:induction false} GrownLands(dom: Dom, tokens: string -> set<string>, p: Id, n: Id, index: nat)
    requires Sound(dom) && n in Shown(dom, tokens) && n !in dom.parent && index <= |ContentChildren(dom, tokens, p)|
    ensures CanLand(dom, tokens, p, n, index)
    ensures var v := ContentChildren(dom, tokens, p); Shifted(v, n, index) == v[..index] + [n] + v[index..]
  {
    KeptMembers(Kids(dom, p), Shown(dom, tokens));
    assert n !in Kids(dom, p);
    WithoutAbsent(ContentChildren(dom, tokens, p), n);
  }

  lemma {:induction false} StillFollows(dom: Dom, after: Dom, tokens: string -> set<string>, p: Id, n: Id, k: nat, a: Id, b: Id)
    requires Sound(dom) && n !in dom.parent && OnlyMoved(dom, after, tokens, p, n)
    requires var v := ContentChildren(dom, tokens, p); k < |v| && v[k] != a && ContentChildren(after, tokens, p) == v[..k + 1] + [n] + v[k + 1..]
    requires Follows(dom, tokens, a, b)
    ensures Follows(after, tokens, a, b)
  {
    if dom.parent[a] == p {
      StaysAfter(ContentChildren(dom, tokens, p), k, n, a, b);
    } else {
      ElsewhereSame(dom, after, tokens, p, n, dom.parent[a]);
    }
  }

  lemma {:induction false} OneGrown(before: Dom, dom: Dom, after: Dom, tokens: string -> set<string>, grown: set<Id>, p: Id, n: Id, index: nat)
    requires OnlyGrown(before, dom, tokens, grown) && n in grown && n in Shown(dom, tokens) && n !in dom.parent
    requires index <= |ContentChildren(dom, tokens, p)| && Landed(dom, after, tokens, p, n, index)
    ensures OnlyGrown(before, after, tokens, grown)
  {
    GrownLands(dom, tokens, p, n, index);
    forall q ensures SameButGrown(before, after, tokens, grown, q) {
      GrownLeavesRest(before, dom, after, tokens, grown, p, n, index, q);
    }
  }

  lemma {:induction false} HangOne(dom: Dom, after: Dom, tokens: string -> set<string>, rows: seq<Id>, grown: set<Id>, i: nat, p: Id)
    requires NoRepeats(rows) && i < |rows| && Hung(dom, rows, grown, i)
    requires OnlyMoved(dom, after, tokens, p, rows[i])
    ensures Hung(after, rows, grown, i + 1)
  {
  }

  /** `n` came from nowhere to stand right behind `a`, counted child `k` of `p`. */
  ghost predicate PutBehind(dom: Dom, after: Dom, tokens: string -> set<string>, p: Id, n: Id, k: nat, a: Id) {
    var v := ContentChildren(dom, tokens, p);
    && n !in dom.parent && a in dom.parent && dom.parent[a] == p
    && k < |v| && v[k] == a && OnlyMoved(dom, after, tokens, p, n)
    && ContentChildren(after, tokens, p) == v[..k + 1] + [n] + v[k + 1..]
  }

  lemma {:induction false} BehindFollows(dom: Dom, after: Dom, tokens: string -> set<string>, p: Id, n: Id, k: nat, a: Id)
    requires PutBehind(dom, after, tokens, p, n, k, a)
    ensures Follows(after, tokens, a, n)
  {
    ComesAfter(ContentChildren(dom, tokens, p), k, n);
  }

  /** One more grown row, behind the row before it. */
  lemma {:induction false} StringNext(dom: Dom, after: Dom, tokens: string -> set<string>, rows: seq<Id>, grown: set<Id>, i: nat, p: Id, k: nat)
    requires Sound(dom) && Strung(dom, tokens, rows, grown, i) && NoRepeats(rows)
    requires 0 < i < |rows| && PutBehind(dom, after, tokens, p, rows[i], k, rows[i - 1])
    ensures Strung(after, tokens, rows, grown, i + 1)
  {
    forall j | 0 < j < i + 1 && rows[j] in grown ensures StandsBehind(after, tokens, rows, j) {
      if j < i {
        assert StandsBehind(dom, tokens, rows, j);
        StillFollows(dom, after, tokens, p, rows[i], k, rows[j - 1], rows[j]);
      } else {
        BehindFollows(dom, after, tokens, p, rows[i], k, rows[j - 1]);
      }
    }
  }
}
