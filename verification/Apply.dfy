/**
 Writing a body through the rules (internal/dataapi/apply.go, listdiff.go). Every method is the walk its
 contract names, marks what it changes, and adds no more to the page than was foreseen.
 */
module Apply {
  import opened Alignment
  import opened Dom
  import opened ListDiff
  import opened PageTree
  import opened RowMatch
  import opened Rows
  import opened Rules
  import opened Sequences
  import opened Values
  import opened Walk

  // ----- text -----

  /** Past the run that starts at `from`. */
  function RunEnd(xs: seq<Id>, gone: set<Id>, from: nat): (k: nat)
    requires from <= |xs|
    ensures from <= k <= |xs| && (forall j :: from <= j < k ==> xs[j] in gone) && (k < |xs| ==> xs[k] !in gone)
    decreases |xs| - from
  {
    if from < |xs| && xs[from] in gone then RunEnd(xs, gone, from + 1) else from
  }

  ghost function GoneAmong(xs: seq<Id>, gone: set<Id>, upto: nat): set<Id>
    requires upto <= |xs|
  {
    set k | 0 <= k < upto && xs[k] in gone :: xs[k]
  }

  /** What stays of a list is what precedes its first replaced run, and what stays of the rest. */
  lemma {:induction false} StayingSplits(pre: seq<Id>, run: seq<Id>, post: seq<Id>, among: set<Id>)
    requires (forall x :: x in pre ==> x in among) && (forall x :: x in run ==> x !in among)
    ensures Kept(pre + (run + post), among) == pre + Kept(post, among)
  {
    KeptConcat(pre, run + post, among);
    KeptConcat(run, post, among);
    KeptAll(pre, among);
    KeptNone(run, among);
  }

  lemma {:induction false} KeptHead(xs: seq<Id>, among: set<Id>)
    requires xs != [] && xs[0] in among
    ensures var kept := Kept(xs, among); kept != [] && kept[0] == xs[0]
  {
    assert xs == [xs[0]] + xs[1..];
    KeptConcat([xs[0]], xs[1..], among);
    KeptOne(xs[0], among);
  }

  lemma {:induction false} AnchorIn(pre: seq<Id>, run: seq<Id>, post: seq<Id>, among: set<Id>)
    requires (forall x :: x in pre ==> x in among) && (forall x :: x in run ==> x !in among)
    requires NoRepeats(pre + (run + post)) && (post != [] ==> post[0] in among)
    ensures var stay := Kept(pre + (run + post), among);
      |pre| <= |stay| && if post != [] then IndexOf(stay, post[0]) == |pre| else |stay| == |pre|
  {
    StayingSplits(pre, run, post, among);
    KeptDistinct(pre + (run + post), among);
    if post != [] {
      KeptHead(post, among);
      IndexIs(pre + Kept(post, among), |pre|);
    }
  }

  lemma {:induction false} Cut(all: seq<Id>, a: nat, b: nat)
    requires a <= b <= |all|
    ensures all == all[..a] + (all[a..b] + all[b..]) && (b < |all| ==> all[b..][0] == all[b])
  {
  }

  /** Where the new text goes among the children that stay. */
  lemma {:induction false} AnchorIndex(all: seq<Id>, gone: set<Id>, among: set<Id>, stay: seq<Id>)
    requires NoRepeats(all) && stay == Kept(all, among) && forall x :: x in all ==> (x in among <==> x !in gone)
    ensures var first := FirstGone(all, gone); var end := RunEnd(all, gone, first);
      first <= |stay| && (if end < |all| then IndexOf(stay, all[end]) == first else |stay| == first)
  {
    var first := FirstGone(all, gone);
    var end := RunEnd(all, gone, first);
    Cut(all, first, end);
    InTurn(all, gone, among);
    AnchorIn(all[..first], all[first..end], all[end..], among);
  }

  /** What precedes the first replaced run stays, the run goes, and what comes next stays. */
  lemma {:induction false} InTurn(all: seq<Id>, gone: set<Id>, among: set<Id>)
    requires forall x :: x in all ==> (x in among <==> x !in gone)
    ensures var first := FirstGone(all, gone); var end := RunEnd(all, gone, first);
      && (forall x :: x in all[..first] ==> x in among) && (forall x :: x in all[first..end] ==> x !in among)
      && (end < |all| ==> all[end] in among)
  {
  }

  // ----- doing an edit -----

  lemma {:induction false} SameTree(before: Dom, after: Dom)
    requires Sound(before) && after.kids == before.kids && after.parent == before.parent && before.nodes.Keys <= after.nodes.Keys
    ensures Sound(after)
  {
  }

  method SetAttributes(w: Writer, n: Id, attrs: seq<Attr>)
    requires w.Valid() && n in w.dom.nodes
    modifies w`dom, w`dirty
    ensures w.Valid() && w.dirty == old(w.dirty) + {n}
    ensures w.dom == old(w.dom).(nodes := old(w.dom.nodes)[n := WithAttrs(old(w.dom.nodes)[n], attrs)])
  {
    var after := w.dom.(nodes := w.dom.nodes[n := WithAttrs(w.dom.nodes[n], attrs)]);
    SameTree(w.dom, after);
    w.dom := after;
    w.dirty := w.dirty + {n};
  }

  method TakeOut(w: Writer, n: Id)
    requires w.Valid()
    modifies w`dom
    ensures w.Valid() && w.dom == Detached(old(w.dom), n)
  {
    DetachedSound(w.dom, n);
    DetachHomed(w.dom, n, w.up);
    DetachBelow(w.dom, n, w.bound, w.nextId);
    w.dom := Detached(w.dom, n);
  }

  /** Takes the old content out, child by child. */
  method RemoveContent(w: Writer, n: Id, gone: set<Id>)
    requires w.Valid() && gone <= w.dom.nodes.Keys
    modifies w`dom
    ensures w.Valid() && w.dom.nodes == old(w.dom.nodes)
    ensures Kids(w.dom, n) == Kept(Kids(old(w.dom), n), w.dom.nodes.Keys - gone)
    ensures forall q :: q != n ==> Kids(w.dom, q) == Kids(old(w.dom), q)
  {
    var all := Kids(w.dom, n);
    ghost var before := w.dom;
    NothingDropped(w.dom);
    assert GoneAmong(all, gone, 0) == {};
    for i := 0 to |all|
      invariant w.Valid() && Dropped(before, w.dom, GoneAmong(all, gone, i))
    {
      RemoveChild(w, all, gone, i, before);
    }
    ContentRemoved(before, w.dom, n, gone);
  }

  method RemoveChild(w: Writer, all: seq<Id>, gone: set<Id>, i: nat, ghost before: Dom)
    requires w.Valid() && i < |all| && Dropped(before, w.dom, GoneAmong(all, gone, i))
    modifies w`dom
    ensures w.Valid() && Dropped(before, w.dom, GoneAmong(all, gone, i + 1))
  {
    GoneNext(before, w.dom, all, gone, i);
    if all[i] in gone {
      TakeOut(w, all[i]);
    }
  }

  lemma {:induction false} GoneNext(before: Dom, dom: Dom, all: seq<Id>, gone: set<Id>, i: nat)
    requires i < |all| && Dropped(before, dom, GoneAmong(all, gone, i))
    ensures Dropped(before, if all[i] in gone then Detached(dom, all[i]) else dom, GoneAmong(all, gone, i + 1))
  {
    if all[i] in gone {
      DropOne(before, dom, GoneAmong(all, gone, i), all[i]);
      assert GoneAmong(all, gone, i + 1) == GoneAmong(all, gone, i) + {all[i]};
    } else {
      assert GoneAmong(all, gone, i + 1) == GoneAmong(all, gone, i);
    }
  }

  lemma {:induction false} ContentRemoved(before: Dom, after: Dom, n: Id, gone: set<Id>)
    requires Sound(before) && Dropped(before, after, GoneAmong(Kids(before, n), gone, |Kids(before, n)|))
    ensures Kids(after, n) == Kept(Kids(before, n), before.nodes.Keys - gone)
    ensures forall q :: q != n ==> Kids(after, q) == Kids(before, q)
  {
    var all := Kids(before, n);
    var out := GoneAmong(all, gone, |all|);
    KeptAgree(all, before.nodes.Keys - out, before.nodes.Keys - gone);
    assert forall x :: x in out ==> n in before.kids && x in before.kids[n];
    forall q | q != n ensures Kids(after, q) == Kids(before, q) {
      DroppedElsewhere(before, out, n, q);
    }
  }

  /** replaceText: children that opted out keep their places. */
  method ReplaceText(w: Writer, e: Engine, n: Id, text: string)
    requires w.Valid() && n in w.dom.nodes
    modifies w`dom, w`nextId, w`bound
    ensures w.Valid() && TextStands(old(w.dom), w.dom, w.tokens, e.holdsNoData(old(w.dom), n), n, text, old(w.nextId))
  {
    var kept := e.holdsNoData(w.dom, n);
    var all, gone := Kids(w.dom, n), Replaced(w.dom, w.tokens, kept);
    var first := FirstGone(all, gone);
    var end := RunEnd(all, gone, first);
    RemoveContent(w, n, gone);
    StayingIs(old(w.dom), w.tokens, kept, n);
    if kept && text == "" {
      return;
    }
    AnchorIndex(all, gone, w.dom.nodes.Keys - gone, Kids(w.dom, n));
    var at := if end < |all| then IndexOf(Kids(w.dom, n), all[end]) else |Kids(w.dom, n)|;
    PlaceText(w, n, text, at);
  }

  lemma {:induction false} StayingIs(dom: Dom, tokens: string -> set<string>, keep: bool, n: Id)
    requires Sound(dom)
    ensures Staying(dom, tokens, keep, n) == Kept(Kids(dom, n), dom.nodes.Keys - Replaced(dom, tokens, keep))
  {
    if !keep {
      KeptNone(Kids(dom, n), dom.nodes.Keys - Replaced(dom, tokens, keep));
    }
  }

  method PlaceText(w: Writer, n: Id, text: string, at: nat)
    requires w.Valid() && n in w.dom.nodes && at <= |Kids(w.dom, n)|
    modifies w`dom, w`nextId, w`bound
    ensures w.Valid() && w.nextId == old(w.nextId) + 1
    ensures w.dom.nodes == old(w.dom.nodes)[old(w.nextId) := NodeData.Text(text)]
    ensures var ks := Kids(old(w.dom), n); Kids(w.dom, n) == ks[..at] + [old(w.nextId)] + ks[at..]
    ensures forall q :: q != n ==> Kids(w.dom, q) == Kids(old(w.dom), q)
  {
    var t := w.nextId;
    w.Raise();
    var grown := w.dom.(nodes := w.dom.nodes[t := NodeData.Text(text)]);
    SameTree(w.dom, grown);
    assert t !in grown.parent;
    PlacedSound(grown, n, t, at);
    PlaceHomed(grown, n, t, at, w.up);
    w.dom := Placed(grown, n, t, at);
    w.nextId := t + 1;
  }

  /** Marks and refusals only grow, no node is forgotten, and every node that changed is marked. */
  ghost predicate Onward(before: Marks, after: Marks) {
    Touches(before.0, after.0, after.1) && before.1 <= after.1 && before.3 <= after.3
  }

  lemma {:induction false} OnwardOn(before: Marks, mid: Marks, after: Marks)
    requires Onward(before, mid) && Onward(mid, after)
    ensures Onward(before, after)
  {
    TouchesMore(before.0, mid.0, after.0, mid.1, after.1);
  }

  /** An edit changes at most the node it is made at, and marks it. */
  lemma {:induction false} DoneIsOnward(edit: Edit, n: Id, before: Marks, after: Marks, err: bool,
                     tokens: string -> set<string>, keep: bool, t: Id)
    requires n in before.0.nodes && before.0.nodes.Keys <= after.0.nodes.Keys
    requires Done(edit, n, before, after, err, tokens, keep, t)
    ensures Onward(before, after)
  {
    if edit.SetText? {
      assert TextStands(before.0, after.0, tokens, keep, n, edit.text, t);
    }
  }

  method Perform(w: Writer, e: Engine, n: Id, edit: Edit) returns (err: bool)
    requires w.Valid() && n in w.dom.nodes
    modifies w
    ensures w.Valid() && Onward(old(w.Marks()), w.Marks())
    ensures Done(edit, n, old(w.Marks()), w.Marks(), err, w.tokens, e.holdsNoData(old(w.dom), n), old(w.nextId))
  {
    err := edit.Fail?;
    match edit {
      case Keep =>
      case Fail =>
      case Refuse => w.refusals := w.refusals + [n];
      case SetAttrs(attrs) => SetAttributes(w, n, attrs);
      case SetText(text) =>
        ReplaceText(w, e, n, text);
        w.dirty := w.dirty + {n};
    }
    DoneIsOnward(edit, n, old(w.Marks()), w.Marks(), err, w.tokens, e.holdsNoData(old(w.dom), n), old(w.nextId));
  }

  // ----- what the engine is trusted with -----

  /**
   `find` answers with rows, and a list's seed is a counted node of the tree. A match made with sums that
   wrap is still a match.
   */
  ghost predicate Reliable(e: Engine, tokens: string -> set<string>) {
    && KnowsFlags(e)
    && (forall dom, ctx, selector {:trigger e.find(dom, ctx, selector)} :: Sound(dom) && e.find(dom, ctx, selector).Some? ==>
          AreRows(dom, tokens, e.find(dom, ctx, selector).value))
    && (forall dom, ctx, selector {:trigger e.seed(dom, ctx, selector)} :: Sound(dom) && e.seed(dom, ctx, selector).Some? ==>
          e.seed(dom, ctx, selector).value in Shown(dom, tokens) && e.seed(dom, ctx, selector).value in dom.parent)
    && forall items, values {:trigger e.wrapped(items, values)} :: Usable(e.wrapped(items, values), |items|, |values|)
  }

  /** What holds of every step of a walk. */
  ghost predicate Sane(w: Writer, e: Engine)
    reads w
  {
    w.Valid() && Reliable(e, w.tokens)
  }

  // ----- scalars -----

  /** A scalar rule that is no list: setText and writePropOrAttr at the node the rule means. */
  method WriteScalar(w: Writer, e: Engine, ctx: Id, form: Form, value: Value) returns (err: bool)
    requires Sane(w, e) && ctx in w.dom.nodes && !form.ListForm?
    modifies w
    ensures w.Valid() && Onward(old(w.Marks()), w.Marks())
    ensures Acted(FormAct(e, old(w.dom), ctx, form, value), e, old(w.Marks()), w.Marks(), err, w.tokens, old(w.nextId))
  {
    match FormAct(e, w.dom, ctx, form, value) {
      case NoAct => return false;
      case Bad => return true;
      case At(n, edit) =>
        TargetIsThere(w, e, ctx, form, value);
        err := Perform(w, e, n, edit);
    }
  }

  lemma {:induction false} TargetIsThere(w: Writer, e: Engine, ctx: Id, form: Form, value: Value)
    requires Sane(w, e) && ctx in w.dom.nodes && !form.ListForm?
    ensures var act := FormAct(e, w.dom, ctx, form, value); act.At? ==> act.n in w.dom.nodes
  {
  }

  // ----- lists -----

  /** extractItem. */
  method ReadItems(e: Engine, dom: Dom, rows: seq<Id>, shape: Value) returns (values: Option<seq<Value>>)
    ensures shape.Null? ==> values == Some(Texts(e, dom, rows))
    ensures !shape.Null? && values.Some? ==> |values.value| == |rows| && forall i :: 0 <= i < |rows| ==> Some(values.value[i]) == Extract(e, dom, rows[i], shape, 0)
    ensures !shape.Null? && values.None? ==> exists i :: 0 <= i < |rows| && Extract(e, dom, rows[i], shape, 0).None?
  {
    if shape.Null? {
      return Some(Texts(e, dom, rows));
    }
    var read: seq<Value> := [];
    for i := 0 to |rows|
      invariant |read| == i && forall k :: 0 <= k < i ==> Some(read[k]) == Extract(e, dom, rows[k], shape, 0)
    {
      var v := Extract(e, dom, rows[i], shape, 0);
      if v.None? {
        return None;
      }
      read := read + [v.value];
    }
    return Some(read);
  }

  /** Pairs the items with what the rows read. */
  method MatchItems(e: Engine, dom: Dom, rows: seq<Id>, shape: Value, items: seq<Value>) returns (matches: Option<seq<int>>)
    requires forall items, values {:trigger e.wrapped(items, values)} :: Usable(e.wrapped(items, values), |items|, |values|)
    ensures matches.Some? ==> Usable(matches.value, |items|, |rows|) && exists values :: Matched(e, dom, rows, shape, items, values, matches.value)
    ensures matches.None? ==> !shape.Null? && exists i :: 0 <= i < |rows| && Extract(e, dom, rows[i], shape, 0).None?
  {
    var oldValues := ReadItems(e, dom, rows, shape);
    if oldValues.None? {
      return None;
    }
    if !FitsMachine(|items|, |rows|, shape) {
      assert Matched(e, dom, rows, shape, items, oldValues.value, e.wrapped(items, oldValues.value));
      return Some(e.wrapped(items, oldValues.value));
    }
    var found, pairs := MatchRows(items, oldValues.value, shape, e.encode, None);
    MatchesFit(found, |rows|);
    assert BestMatch(items, oldValues.value, shape, e.encode, None, found, pairs);
    assert Matched(e, dom, rows, shape, items, oldValues.value, found);
    return Some(found);
  }

  lemma {:induction false} CountShort(flags: seq<bool>, i: nat)
    requires i < |flags| && !flags[i]
    ensures Count(flags) < |flags|
    decreases |flags|
  {
    CountAtMost(flags[..|flags| - 1]);
    if i < |flags| - 1 {
      CountShort(flags[..|flags| - 1], i);
    }
  }

  lemma {:induction false} CountAtMost(flags: seq<bool>)
    ensures Count(flags) <= |flags|
    decreases |flags|
  {
    if flags != [] {
      CountAtMost(flags[..|flags| - 1]);
    }
  }

  /** Only a list that grew has an item without a row. */
  lemma {:induction false} MatchesFit(matches: seq<int>, rows: nat)
    requires InRange(matches, rows) && Count(Flags(matches)) == Fewer(|matches|, rows)
    ensures forall i :: 0 <= i < |matches| ==> matches[i] < rows && (matches[i] < 0 ==> |matches| > rows)
  {
    forall i | 0 <= i < |matches| && matches[i] < 0 ensures |matches| > rows {
      CountShort(Flags(matches), i);
    }
  }

  /** Reads the rows, matches the items with them and reconciles the tree. */
  method Settle(w: Writer, e: Engine, rows: seq<Id>, seed: Id, shape: Value, items: seq<Value>)
    returns (err: bool, finalNodes: seq<Id>)
    requires Sane(w, e) && AreRows(w.dom, w.tokens, rows)
    requires rows == [] ==> seed in Shown(w.dom, w.tokens) && seed in w.dom.parent
    modifies w
    ensures w.Valid() && Onward(old(w.Marks()), w.Marks())
    ensures !err ==> |finalNodes| == |items| && forall n :: n in finalNodes ==> n in w.dom.nodes
    ensures Settling(e, w.tokens, rows, seed, shape, items, old(w.Marks()), w.Marks(), err, finalNodes)
  {
    var matches := MatchItems(e, w.dom, rows, shape, items);
    if matches.None? {
      return true, [];
    }
    ghost var plan;
    finalNodes, plan := w.Reconcile(rows, seed, matches.value);
    ReconcilingIs(plan, w.tokens, old(w.Marks()), w.Marks());
    err := false;
  }

  /** An item of a list of texts: setText on its row. */
  method WriteText(w: Writer, e: Engine, n: Id, item: Value) returns (err: bool)
    requires Sane(w, e) && n in w.dom.nodes
    modifies w
    ensures w.Valid() && Onward(old(w.Marks()), w.Marks())
    ensures Acted(FormAct(e, old(w.dom), n, DotForm, item), e, old(w.Marks()), w.Marks(), err, w.tokens, old(w.nextId))
  {
    err := WriteScalar(w, e, n, DotForm, item);
  }

  /** One item of a list. */
  method WriteItem(w: Writer, e: Engine, n: Id, shape: Value, item: Value, depth: nat) returns (err: bool)
    requires Sane(w, e) && depth <= MAX_RULE_DEPTH && n in w.dom.nodes
    modifies w
    ensures w.Valid() && Onward(old(w.Marks()), w.Marks())
    ensures ItemWent(e, w.tokens, n, shape, item, depth, old(w.Marks()), w.Marks(), err)
    decreases MAX_RULE_DEPTH + 2 - depth, 0
  {
    if shape.Null? {
      err := WriteText(w, e, n, item);
      return;
    }
    err := ApplyAt(w, e, n, shape, item, depth + 1);
  }

  method WriteItems(w: Writer, e: Engine, rows: seq<Id>, shape: Value, items: seq<Value>, depth: nat) returns (err: bool)
    requires Sane(w, e) && depth <= MAX_RULE_DEPTH && |rows| == |items|
    requires forall n :: n in rows ==> n in w.dom.nodes
    modifies w
    ensures w.Valid() && Onward(old(w.Marks()), w.Marks())
    ensures ItemsWent(e, w.tokens, rows, shape, items, depth, |items|, old(w.Marks()), w.Marks(), err)
    decreases MAX_RULE_DEPTH + 2 - depth, 1, 1
  {
    ghost var start := w.Marks();
    for i := 0 to |rows|
      invariant w.Valid() && Onward(start, w.Marks())
      invariant ItemsWent(e, w.tokens, rows, shape, items, depth, i, start, w.Marks(), false)
    {
      err := WriteNext(w, e, rows, shape, items, depth, i, start);
      if err {
        return true;
      }
    }
    return false;
  }

  /** One item after those before it; after it there may be more. */
  method WriteNext(w: Writer, e: Engine, rows: seq<Id>, shape: Value, items: seq<Value>, depth: nat, i: nat,
                   ghost start: Marks) returns (err: bool)
    requires Sane(w, e) && depth <= MAX_RULE_DEPTH && i < |rows| == |items|
    requires rows[i] in start.0.nodes && Onward(start, w.Marks())
    requires ItemsWent(e, w.tokens, rows, shape, items, depth, i, start, w.Marks(), false)
    modifies w
    ensures w.Valid() && Onward(start, w.Marks())
    ensures ItemsWent(e, w.tokens, rows, shape, items, depth, i + 1, start, w.Marks(), err)
    ensures err ==> ItemsWent(e, w.tokens, rows, shape, items, depth, |items|, start, w.Marks(), true)
    decreases MAX_RULE_DEPTH + 2 - depth, 1, 0
  {
    ghost var before := w.Marks();
    err := WriteItem(w, e, rows[i], shape, items[i], depth);
    OnwardOn(start, before, w.Marks());
    NextItemWent(e, w.tokens, rows, shape, items, depth, i, start, before, w.Marks(), err);
  }

  /** The rows are found and there are items for them. */
  method WriteRows(w: Writer, e: Engine, rows: seq<Id>, seed: Id, shape: Value, items: seq<Value>, depth: nat) returns (err: bool)
    requires Sane(w, e) && depth <= MAX_RULE_DEPTH && AreRows(w.dom, w.tokens, rows)
    requires rows == [] ==> seed in Shown(w.dom, w.tokens) && seed in w.dom.parent
    modifies w
    ensures w.Valid() && Onward(old(w.Marks()), w.Marks())
    ensures RowsWent(e, w.tokens, rows, seed, shape, items, depth, old(w.Marks()), w.Marks(), err)
    decreases MAX_RULE_DEPTH + 2 - depth, 2, 0
  {
    var finalNodes;
    err, finalNodes := Settle(w, e, rows, seed, shape, items);
    ghost var before, failed := w.Marks(), err;
    if !err {
      err := WriteItems(w, e, finalNodes, shape, items, depth);
      OnwardOn(old(w.Marks()), before, w.Marks());
    }
    RowsWentSo(e, w.tokens, rows, seed, shape, items, depth, old(w.Marks()), before, failed, finalNodes, w.Marks(), err);
  }

  /** listDiff. */
  method WriteList(w: Writer, e: Engine, ctx: Id, selector: Option<string>, shape: Value, items: seq<Value>, depth: nat) returns (err: bool)
    requires Sane(w, e) && depth <= MAX_RULE_DEPTH
    modifies w
    ensures w.Valid() && Onward(old(w.Marks()), w.Marks())
    ensures ListWent(e, w.tokens, ctx, selector, shape, Arr(items), depth, old(w.Marks()), w.Marks(), err)
    decreases MAX_RULE_DEPTH + 2 - depth, 3
  {
    var found := Found(e, w.dom, ctx, selector);
    if found.None? {
      return true;
    }
    err := WriteFound(w, e, ctx, selector, found.value, shape, items, depth);
  }

  /** The rows, if any, are found. */
  method WriteFound(w: Writer, e: Engine, ctx: Id, selector: Option<string>, rows: seq<Id>, shape: Value, items: seq<Value>, depth: nat)
    returns (err: bool)
    requires Sane(w, e) && depth <= MAX_RULE_DEPTH
    requires AreRows(w.dom, w.tokens, rows)
    modifies w
    ensures w.Valid() && Onward(old(w.Marks()), w.Marks())
    ensures FoundWent(e, w.tokens, ctx, selector, rows, shape, items, depth, old(w.Marks()), w.Marks(), err)
    decreases MAX_RULE_DEPTH + 2 - depth, 2, 1
  {
    if items == [] {
      RemoveAll(w, rows);
      return false;
    }
    var seed := SeedFor(e, w.dom, ctx, selector, rows);
    if seed.None? {
      return true;
    }
    err := WriteRows(w, e, rows, seed.value, shape, items, depth);
  }

  /** An empty list takes every row out. */
  method RemoveAll(w: Writer, rows: seq<Id>)
    requires w.Valid() && AreRows(w.dom, w.tokens, rows)
    modifies w
    ensures w.Valid() && Onward(old(w.Marks()), w.Marks()) && w.dom.nodes == old(w.dom.nodes)
    ensures Emptied(rows, old(w.Marks()), w.Marks())
  {
    w.Raise();
    w.RemoveUnmatched(rows, {});
  }

  // ----- the walk -----

  method ApplyScalar(w: Writer, e: Engine, ctx: Id, rule: string, value: Value, depth: nat) returns (err: bool)
    requires Sane(w, e) && depth <= MAX_RULE_DEPTH && ctx in w.dom.nodes
    modifies w
    ensures w.Valid() && Onward(old(w.Marks()), w.Marks())
    ensures ScalarWent(e, w.tokens, ctx, FormOf(e, rule), value, depth, old(w.Marks()), w.Marks(), err)
    decreases MAX_RULE_DEPTH + 2 - depth, 4
  {
    var form := FormOf(e, rule);
    if form.ListForm? {
      if !value.Arr? {
        return false;
      }
      err := WriteList(w, e, ctx, Some(form.selector), Null, value.items, depth);
      return;
    }
    err := WriteScalar(w, e, ctx, form, value);
  }

  /** applyAt: walks the rule tree against the body, writing as it goes. */
  method ApplyAt(w: Writer, e: Engine, ctx: Id, rule: Value, value: Value, depth: nat) returns (err: bool)
    requires Sane(w, e) && depth <= MAX_RULE_DEPTH + 1 && ctx in w.dom.nodes
    modifies w
    ensures w.Valid() && Onward(old(w.Marks()), w.Marks())
    ensures Went(e, w.tokens, ctx, rule, value, depth, old(w.Marks()), w.Marks(), err)
    decreases MAX_RULE_DEPTH + 2 - depth, 5
  {
    if depth > MAX_RULE_DEPTH {
      return true;
    }
    if value.Missing? {
      return false;
    }
    match rule {
      case Str(r) =>
        err := ApplyScalar(w, e, ctx, r, value, depth);
      case Arr(items) =>
        if !value.Arr? {
          return false;
        }
        err := WriteList(w, e, ctx, SelectorOf(items), ShapeOf(items), value.items, depth);
      case Obj(fields) =>
        err := ApplyFields(w, e, ctx, fields, value, depth);
      case _ =>
        return false;
    }
  }

  /** One key of an object rule. */
  method ApplyField(w: Writer, e: Engine, ctx: Id, fields: seq<Field>, i: nat, value: Value, depth: nat) returns (err: bool)
    requires Sane(w, e) && depth <= MAX_RULE_DEPTH && ctx in w.dom.nodes && i < |fields|
    modifies w
    ensures w.Valid() && Onward(old(w.Marks()), w.Marks())
    ensures Went(e, w.tokens, ctx, fields[i].value, SubValue(value, fields[i].key), depth + 1, old(w.Marks()), w.Marks(), err)
    decreases MAX_RULE_DEPTH + 2 - depth, 0
  {
    err := ApplyAt(w, e, ctx, fields[i].value, SubValue(value, fields[i].key), depth + 1);
  }

  method ApplyFields(w: Writer, e: Engine, ctx: Id, fields: seq<Field>, value: Value, depth: nat) returns (err: bool)
    requires Sane(w, e) && depth <= MAX_RULE_DEPTH && ctx in w.dom.nodes
    modifies w
    ensures w.Valid() && Onward(old(w.Marks()), w.Marks())
    ensures FieldsWent(e, w.tokens, ctx, fields, value, depth, |fields|, old(w.Marks()), w.Marks(), err)
    decreases MAX_RULE_DEPTH + 2 - depth, 4
  {
    ghost var start := w.Marks();
    for i := 0 to |fields|
      invariant w.Valid() && Onward(start, w.Marks())
      invariant FieldsWent(e, w.tokens, ctx, fields, value, depth, i, start, w.Marks(), false)
    {
      err := ApplyNext(w, e, ctx, fields, value, depth, i, start);
      if err {
        return true;
      }
    }
    return false;
  }

  /** One key after those before it. */
  method ApplyNext(w: Writer, e: Engine, ctx: Id, fields: seq<Field>, value: Value, depth: nat, i: nat,
                   ghost start: Marks) returns (err: bool)
    requires Sane(w, e) && depth <= MAX_RULE_DEPTH && i < |fields|
    requires ctx in start.0.nodes && Onward(start, w.Marks())
    requires FieldsWent(e, w.tokens, ctx, fields, value, depth, i, start, w.Marks(), false)
    modifies w
    ensures w.Valid() && Onward(start, w.Marks())
    ensures FieldsWent(e, w.tokens, ctx, fields, value, depth, i + 1, start, w.Marks(), err)
    ensures err ==> FieldsWent(e, w.tokens, ctx, fields, value, depth, |fields|, start, w.Marks(), true)
    decreases MAX_RULE_DEPTH + 2 - depth, 3
  {
    ghost var before := w.Marks();
    err := ApplyField(w, e, ctx, fields, i, value, depth);
    OnwardOn(start, before, w.Marks());
    NextFieldWent(e, w.tokens, ctx, fields, value, depth, i, start, before, w.Marks(), err);
  }
}
