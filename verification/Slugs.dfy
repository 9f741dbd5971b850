/**
 Site labels (internal/config/config.go): which key is served under which label, and which labels are
 spent. A spent label is never served again, because the new site would inherit the old one's storage.
 */
module Slugs {
  import opened Decimal
  import opened Orders
  import opened Sequences
  import opened TextOrder
  import opened Values

  const SLUG_CAP := 64

  datatype Slugs = Slugs(issued: map<string, string>, retired: seq<string>, next: int)

  /** No two keys share a label, no issued label is spent, none is spent twice. */
  ghost predicate Consistent(s: Slugs) {
    OneKeyEach(s.issued) && Apart(s)
  }

  /** The issued labels and the spent ones have nothing in common, and none is spent twice. */
  ghost predicate Apart(s: Slugs) {
    Distinct(s.retired) && forall k :: k in s.issued ==> s.issued[k] !in s.retired
  }

  ghost predicate Distinct(xs: seq<string>) {
    forall i, j :: 0 <= i < j < |xs| ==> xs[i] != xs[j]
  }

  ghost predicate OneKeyEach(issued: map<string, string>) {
    forall a, b :: a in issued && b in issued && a != b ==> issued[a] != issued[b]
  }

  predicate InUse(s: Slugs, slug: string) {
    slug in s.issued.Values || slug in s.retired
  }

  /** Every label that was ever handed out and not dropped. */
  function Labels(s: Slugs): set<string> {
    s.issued.Values + set l | l in s.retired
  }

  // ----- labels -----

  /** htmlclay, htmlclay1, htmlclay2, ... */
  function NumberedSlug(n: nat): string
    requires n > 0
  {
    if n == 1 then "htmlclay" else "htmlclay" + Itoa(n - 1)
  }

  lemma {:induction false} NumberedSlugInjective(m: nat, n: nat)
    requires m > 0 && n > 0 && NumberedSlug(m) == NumberedSlug(n)
    ensures m == n
  {
    var base := "htmlclay";
    if m > 1 && n > 1 {
      assert Itoa(m - 1) == NumberedSlug(m)[|base|..] == NumberedSlug(n)[|base|..] == Itoa(n - 1);
      ItoaInjective(m - 1, n - 1);
    }
  }

  // ----- single steps -----

  function Retire(retired: seq<string>, slug: string): seq<string> {
    if slug in retired then retired else retired + [slug]
  }

  function Forgotten(s: Slugs, key: string): Slugs {
    var slug := Slug(s, key);
    s.(issued := s.issued - {key}, retired := if slug != "" then Retire(s.retired, slug) else s.retired)
  }

  function Slug(s: Slugs, key: string): string {
    if key in s.issued then s.issued[key] else ""
  }

  function Unspent(retired: seq<string>, slug: string): seq<string> {
    if retired == [] then []
    else (if retired[0] != slug then [retired[0]] else []) + Unspent(retired[1..], slug)
  }

  function Restored(s: Slugs, key: string, slug: string): Slugs {
    s.(issued := s.issued[key := slug], retired := Unspent(s.retired, slug))
  }

  /** The first number from the counter on whose label is free. */
  ghost predicate IsNext(s: Slugs, n: nat) {
    && n >= Start(s) && !InUse(s, NumberedSlug(n))
    && forall m :: Start(s) <= m < n ==> InUse(s, NumberedSlug(m))
  }

  function Start(s: Slugs): (n: nat)
    ensures n > 0
  {
    if s.next > 1 then s.next else 1
  }

  class SlugConfig {
    var issued: map<string, string>
    var retired: seq<string>
    var next: int

    function Now(): Slugs
      reads this
    {
      Slugs(issued, retired, next)
    }

    constructor (issued: map<string, string>, retired: seq<string>, next: int)
      ensures Now() == Slugs(issued, retired, next)
    {
      this.issued, this.retired, this.next := issued, retired, next;
    }

    /** AllocateSiteSlug. The search ends because only so many labels are in use. */
    method Allocate(key: string) returns (slug: string, ghost n: nat)
      modifies this
      ensures IsNext(old(Now()), n) && slug == NumberedSlug(n)
      ensures Now() == Slugs(old(issued)[key := slug], old(retired), n + 1)
    {
      var k := Start(Now());
      ghost var ahead := Labels(Now());
      slug := NumberedSlug(k);
      while InUse(Now(), slug)
        invariant k >= Start(Now()) && slug == NumberedSlug(k) && Now() == old(Now())
        invariant forall m :: Start(Now()) <= m < k ==> InUse(Now(), NumberedSlug(m))
        invariant forall m :: m >= k && InUse(Now(), NumberedSlug(m)) ==> NumberedSlug(m) in ahead
        decreases ahead
      {
        forall m | m > k ensures NumberedSlug(m) != slug {
          if NumberedSlug(m) == slug {
            NumberedSlugInjective(m, k);
          }
        }
        ahead := ahead - {slug};
        k := k + 1;
        slug := NumberedSlug(k);
      }
      issued := issued[key := slug];
      next := k + 1;
      n := k;
    }

    /** ForgetSiteSlug. */
    method Forget(key: string) returns (slug: string)
      modifies this
      ensures slug == Slug(old(Now()), key) && Now() == Forgotten(old(Now()), key)
    {
      slug := if key in issued then issued[key] else "";
      issued := issued - {key};
      if slug != "" {
        retired := Retire(retired, slug);
      }
    }

    /** RestoreSiteSlug. */
    method Restore(key: string, slug: string)
      modifies this
      ensures Now() == Restored(old(Now()), key, slug)
    {
      issued := issued[key := slug];
      var kept: seq<string> := [];
      for i := 0 to |retired|
        invariant issued == old(issued)[key := slug] && retired == old(retired) && next == old(next)
        invariant kept + Unspent(retired[i..], slug) == Unspent(retired, slug)
      {
        assert retired[i..][0] == retired[i] && retired[i..][1..] == retired[i + 1..];
        if retired[i] != slug {
          Assoc(kept, [retired[i]], Unspent(retired[i + 1..], slug));
          kept := kept + [retired[i]];
        }
      }
      assert kept + [] == kept;
      retired := kept;
    }

    /** DropSiteSlug. */
    method Drop(key: string)
      modifies this
      ensures Now() == old(Now()).(issued := old(issued) - {key})
    {
      issued := issued - {key};
    }

    /** RememberSiteSlug; the caller has checked that the label is free. */
    method Remember(key: string, slug: string)
      modifies this
      ensures Now() == old(Now()).(issued := old(issued)[key := slug])
    {
      issued := issued[key := slug];
    }

    // ----- the passes a loaded config goes through -----

    /** retireNamedSlugs: labels of the earlier shape are spent, and their keys let go. */
    method RetireNamed()
      modifies this
      ensures issued == map k | k in old(issued) && IsNumbered(old(issued)[k]) :: old(issued)[k]
      ensures old(retired) <= retired && next == old(next) && Labels(Now()) == Labels(old(Now()))
      ensures Consistent(old(Now())) ==> Consistent(Now())
      ensures Apart(old(Now())) ==> Apart(Now())
    {
      var keys := issued.Keys;
      while keys != {}
        invariant keys <= issued.Keys <= old(issued).Keys
        invariant forall k :: k in issued ==> issued[k] == old(issued)[k]
        invariant forall k :: k in old(issued) && k !in keys ==> (k in issued <==> IsNumbered(old(issued)[k]))
        invariant old(retired) <= retired && next == old(next) && Labels(Now()) == Labels(old(Now()))
        invariant forall l :: l in retired && l !in old(retired) ==> !IsNumbered(l)
        invariant Distinct(old(retired)) ==> Distinct(retired)
        decreases keys
      {
        var key :| key in keys;
        keys := keys - {key};
        if !IsNumbered(issued[key]) {
          RetiringKeeps(Now(), key);
          retired := Retire(retired, issued[key]);
          issued := issued - {key};
        }
      }
    }

    /** dedupeSiteSlugs: of the keys on one label the first in order keeps it. */
    method Dedupe(trusted: set<string>)
      modifies this
      ensures forall k :: k in old(issued) ==> (k in issued <==> IsFirst(old(issued), trusted, k))
      ensures forall k :: k in issued ==> k in old(issued) && issued[k] == old(issued)[k]
      ensures OneKeyEach(issued) && issued.Values == old(issued).Values && retired == old(retired) && next == old(next)
    {
      KeepOrderIsTotal(trusted);
      var order := Sorted(issued.Keys, (a, b) => KeepsBefore(trusted, a, b));
      issued := KeepFirsts(issued, order);
      FirstsAreFirst(old(issued), issued, trusted, order);
      FirstsDiffer(old(issued), issued, order);
      FirstsKeepLabels(old(issued), issued, order);
    }

    /** capSiteSlugs: past the cap, keys of no trusted folder are let go, missing ones first, and their labels spent. */
    method Cap(trusted: set<string>, stat: string -> bool)
      modifies this
      ensures forall k :: k in issued ==> k in old(issued) && issued[k] == old(issued)[k]
      ensures forall k :: k in old(issued) && k in trusted ==> k in issued
      ensures forall k, l :: k in old(issued) && k !in issued && l in issued && l !in trusted ==> LeavesBefore(stat, k, l)
      ensures |old(issued)| <= SLUG_CAP ==> Now() == old(Now())
      ensures |old(issued)| > SLUG_CAP ==> |issued| == SLUG_CAP || (|issued| > SLUG_CAP && forall k :: k in issued ==> k in trusted)
      ensures old(retired) <= retired && next == old(next) && Labels(Now()) == Labels(old(Now()))
      ensures Consistent(old(Now())) ==> Consistent(Now())
    {
      if |issued| <= SLUG_CAP {
        return;
      }
      CodeOrderIsTotal();
      var missing := Sorted((set k | k in issued && k !in trusted && !stat(k)), CodeLess);
      var present := Sorted((set k | k in issued && k !in trusted && stat(k)), CodeLess);
      var order := missing + present;
      OrderLeaves(stat, missing, present);
      var after, m := Evicted(Now(), order);
      issued, retired := after.issued, after.retired;
      EvictedInOrder(stat, old(issued), issued, trusted, order, m);
    }

    /** What a parsed config goes through on load: the labels in use stay in use, and it comes out consistent. */
    method LoadPasses(trusted: set<string>, stat: string -> bool)
      modifies this
      ensures Labels(Now()) == Labels(old(Now())) && old(retired) <= retired
      ensures Apart(old(Now())) ==> Consistent(Now())
      ensures forall k :: k in issued ==> k in old(issued) && issued[k] == old(issued)[k] && IsNumbered(issued[k])
      ensures forall k :: k in old(issued) && k in trusted && IsNumbered(old(issued)[k]) && IsFirst(old(issued), trusted, k) ==> k in issued
    {
      RetireNamed();
      ghost var named := Now();
      Dedupe(trusted);
      assert Labels(Now()) == Labels(named);
      Cap(trusted, stat);
    }
  }

  /** Lets keys go in this order until no more than the cap are left. */
  method Evicted(s: Slugs, order: seq<string>) returns (after: Slugs, ghost m: nat)
    requires |s.issued| > SLUG_CAP && Distinct(order) && forall k :: k in order ==> k in s.issued
    ensures m <= |order| && (forall k :: k in after.issued <==> k in s.issued && k !in order[..m])
    ensures forall k :: k in after.issued ==> after.issued[k] == s.issued[k]
    ensures |after.issued| == SLUG_CAP || (m == |order| && |after.issued| > SLUG_CAP)
    ensures s.retired <= after.retired && after.next == s.next && Labels(after) == Labels(s)
    ensures Consistent(s) ==> Consistent(after)
  {
    after := s;
    m := 0;
    for i := 0 to |order|
      invariant m == i && (forall k :: k in after.issued <==> k in s.issued && k !in order[..i])
      invariant forall k :: k in after.issued ==> after.issued[k] == s.issued[k]
      invariant |after.issued| > SLUG_CAP || |after.issued| == SLUG_CAP
      invariant s.retired <= after.retired && after.next == s.next && Labels(after) == Labels(s)
      invariant Consistent(s) ==> Consistent(after)
    {
      if |after.issued| <= SLUG_CAP {
        return;
      }
      var key := order[i];
      assert order[..i + 1] == order[..i] + [key];
      assert key !in order[..i];
      EvictionKeeps(after, key);
      after := after.(issued := after.issued - {key}, retired := Retire(after.retired, after.issued[key]));
      m := i + 1;
    }
  }

  // ----- orders -----

  /** A trusted folder's key comes first. */
  predicate KeepsBefore(trusted: set<string>, a: string, b: string) {
    if (a in trusted) != (b in trusted) then a in trusted else CodeLess(a, b)
  }

  lemma {:induction false} KeepOrderIsTotal(trusted: set<string>)
    ensures Total((a, b) => KeepsBefore(trusted, a, b))
  {
    CodeOrderIsTotal();
    var less := (a, b) => KeepsBefore(trusted, a, b);
    forall a, b ensures (a != b <==> less(a, b) || less(b, a)) && !(less(a, b) && less(b, a)) {
      assert (a != b <==> CodeLess(a, b) || CodeLess(b, a)) && !(CodeLess(a, b) && CodeLess(b, a));
    }
    forall a, b, c | less(a, b) && less(b, c) ensures less(a, c) {
      assert CodeLess(a, b) && CodeLess(b, c) ==> CodeLess(a, c);
    }
  }

  /** A key that no longer exists goes first. */
  predicate LeavesBefore(stat: string -> bool, a: string, b: string) {
    if stat(a) != stat(b) then stat(b) else CodeLess(a, b)
  }

  // ----- what the passes rest on -----

  /** No other key of the same label comes before this one. */
  ghost predicate IsFirst(issued: map<string, string>, trusted: set<string>, k: string)
    requires k in issued
  {
    forall a :: a in issued && a != k && issued[a] == issued[k] ==> KeepsBefore(trusted, k, a)
  }

  ghost predicate FirstAt(issued: map<string, string>, order: seq<string>, j: nat)
    requires j < |order| && forall i :: 0 <= i < |order| ==> order[i] in issued
  {
    issued[order[j]] !in Seen(issued, order, j)
  }

  /** The labels of the first `i` keys. */
  function Seen(issued: map<string, string>, order: seq<string>, i: nat): set<string>
    requires i <= |order| && forall h :: 0 <= h < |order| ==> order[h] in issued
  {
    set h | 0 <= h < i :: issued[order[h]]
  }

  /** Goes through the keys in order and drops those whose label was seen. */
  method KeepFirsts(issued: map<string, string>, order: seq<string>) returns (kept: map<string, string>)
    requires Distinct(order) && forall k :: k in order <==> k in issued
    ensures AreFirsts(issued, kept, order)
  {
    kept := issued;
    var owner: set<string> := {};
    for i := 0 to |order|
      invariant Sifted(issued, kept, order, i) && owner == Seen(issued, order, i)
    {
      Sift(issued, kept, order, i);
      var slug := kept[order[i]];
      if slug in owner {
        kept := kept - {order[i]};
      } else {
        owner := owner + {slug};
      }
    }
  }

  /** The first `i` keys have been gone through. */
  ghost predicate Sifted(issued: map<string, string>, kept: map<string, string>, order: seq<string>, i: nat) {
    && i <= |order| && (forall h :: 0 <= h < |order| ==> order[h] in issued)
    && (forall k :: k in kept ==> k in issued && kept[k] == issued[k])
    && (forall j :: i <= j < |order| ==> order[j] in kept)
    && forall j :: 0 <= j < i ==> (order[j] in kept <==> FirstAt(issued, order, j))
  }

  lemma {:induction false} Sift(issued: map<string, string>, kept: map<string, string>, order: seq<string>, i: nat)
    requires i < |order| && Distinct(order) && Sifted(issued, kept, order, i)
    ensures order[i] in kept && Seen(issued, order, i + 1) == Seen(issued, order, i) + {kept[order[i]]}
    ensures Sifted(issued, if kept[order[i]] in Seen(issued, order, i) then kept - {order[i]} else kept, order, i + 1)
  {
  }

  ghost predicate AreFirsts(before: map<string, string>, after: map<string, string>, order: seq<string>) {
    && (forall k :: k in order <==> k in before)
    && (forall k :: k in after ==> k in before && after[k] == before[k])
    && forall j :: 0 <= j < |order| ==> (order[j] in after <==> FirstAt(before, order, j))
  }

  lemma {:induction false} FirstsAreFirst(before: map<string, string>, after: map<string, string>, trusted: set<string>, order: seq<string>)
    requires AreFirsts(before, after, order)
    requires Total((a, b) => KeepsBefore(trusted, a, b)) && InOrder(order, (a, b) => KeepsBefore(trusted, a, b))
    ensures forall k :: k in before ==> (k in after <==> IsFirst(before, trusted, k))
  {
    forall k | k in before ensures k in after <==> IsFirst(before, trusted, k) {
      var j :| 0 <= j < |order| && order[j] == k;
      PlaceTells(before, trusted, order, j);
    }
  }

  lemma {:induction false} PlaceTells(before: map<string, string>, trusted: set<string>, order: seq<string>, j: nat)
    requires j < |order| && forall k :: k in order <==> k in before
    requires Total((a, b) => KeepsBefore(trusted, a, b)) && InOrder(order, (a, b) => KeepsBefore(trusted, a, b))
    ensures FirstAt(before, order, j) <==> IsFirst(before, trusted, order[j])
  {
    var less := (a, b) => KeepsBefore(trusted, a, b);
    if FirstAt(before, order, j) {
      forall a | a in before && a != order[j] && before[a] == before[order[j]] ensures KeepsBefore(trusted, order[j], a) {
        var h :| 0 <= h < |order| && order[h] == a;
        assert less(order[j], order[h]);
      }
    } else {
      var h :| 0 <= h < j && before[order[h]] == before[order[j]];
      assert less(order[h], order[j]) && !less(order[j], order[h]);
    }
  }

  lemma {:induction false} FirstsDiffer(before: map<string, string>, after: map<string, string>, order: seq<string>)
    requires AreFirsts(before, after, order)
    ensures OneKeyEach(after)
  {
    forall a, b | a in after && b in after && a != b ensures after[a] != after[b] {
      var i :| 0 <= i < |order| && order[i] == a;
      var j :| 0 <= j < |order| && order[j] == b;
      assert FirstAt(before, order, i) && FirstAt(before, order, j);
    }
  }

  lemma {:induction false} FirstsKeepLabels(before: map<string, string>, after: map<string, string>, order: seq<string>)
    requires AreFirsts(before, after, order)
    ensures after.Values == before.Values
  {
    forall l ensures l in after.Values <==> l in before.Values {
      if l in after.Values {
        var k :| k in after && after[k] == l;
        assert before[k] == l;
      }
      if l in before.Values {
        var k :| k in before && before[k] == l;
        var j :| 0 <= j < |order| && order[j] == k;
        var h := FirstOf(before, order, j);
        assert order[h] in after && after[order[h]] == l;
      }
    }
  }

  lemma {:induction false} FirstOf(before: map<string, string>, order: seq<string>, j: nat) returns (h: nat)
    requires j < |order| && forall k :: k in order ==> k in before
    ensures h <= j && FirstAt(before, order, h) && before[order[h]] == before[order[j]]
    decreases j
  {
    if FirstAt(before, order, j) {
      return j;
    }
    var i :| 0 <= i < j && before[order[i]] == before[order[j]];
    h := FirstOf(before, order, i);
  }

  lemma {:induction false} OrderLeaves(stat: string -> bool, missing: seq<string>, present: seq<string>)
    requires InOrder(missing, CodeLess) && InOrder(present, CodeLess)
    requires (forall k :: k in missing ==> !stat(k)) && forall k :: k in present ==> stat(k)
    ensures var order := missing + present; forall i, j :: 0 <= i < j < |order| ==> LeavesBefore(stat, order[i], order[j])
  {
    var order := missing + present;
    forall i, j | 0 <= i < j < |order| ensures LeavesBefore(stat, order[i], order[j]) {
      assert order[i] in missing || order[i] in present;
      assert order[j] in missing || order[j] in present;
    }
  }

  lemma {:induction false} EvictedInOrder(stat: string -> bool, before: map<string, string>, after: map<string, string>, trusted: set<string>, order: seq<string>, m: nat)
    requires m <= |order| && forall i, j :: 0 <= i < j < |order| ==> LeavesBefore(stat, order[i], order[j])
    requires forall k :: k in order <==> k in before && k !in trusted
    requires forall k :: k in after <==> k in before && k !in order[..m]
    ensures forall k, l :: k in before && k !in after && l in after && l !in trusted ==> LeavesBefore(stat, k, l)
    ensures m == |order| ==> forall k :: k in after ==> k in trusted
  {
    forall k, l | k in before && k !in after && l in after && l !in trusted ensures LeavesBefore(stat, k, l) {
      var i :| 0 <= i < m && order[i] == k;
      var j :| 0 <= j < |order| && order[j] == l;
      assert forall h :: 0 <= h < m ==> order[h] in order[..m];
    }
    if m == |order| {
      assert order[..m] == order;
    }
  }

  lemma {:induction false} EvictionKeeps(s: Slugs, key: string)
    requires key in s.issued
    ensures var after := s.(issued := s.issued - {key}, retired := Retire(s.retired, s.issued[key]));
      Labels(after) == Labels(s) && (Consistent(s) ==> Consistent(after))
  {
    RetiringKeeps(s, key);
  }

  lemma {:induction false} RetiringKeeps(s: Slugs, key: string)
    requires key in s.issued
    ensures Labels(s.(issued := s.issued - {key}, retired := Retire(s.retired, s.issued[key]))) == Labels(s)
  {
    var after := s.(issued := s.issued - {key}, retired := Retire(s.retired, s.issued[key]));
    forall l ensures l in Labels(after) <==> l in Labels(s) {
      if l in s.issued.Values && l != s.issued[key] {
        var k :| k in s.issued && s.issued[k] == l;
        assert k in after.issued && after.issued[k] == l;
      }
      if l in after.issued.Values {
        var k :| k in after.issued && after.issued[k] == l;
        assert s.issued[k] == l;
      }
    }
  }

  predicate IsDigit(c: char) {
    '0' <= c <= '9'
  }

  /** htmlclay, or htmlclay and a number without leading zeros. */
  predicate IsNumbered(slug: string) {
    slug == "htmlclay"
    || (|slug| > 8 && slug[..8] == "htmlclay" && slug[8] != '0' && forall i :: 8 <= i < |slug| ==> IsDigit(slug[i]))
  }

  // ----- over whole runs -----

  datatype Op = Allocate(key: string) | Remember(key: string, slug: string) | Forget(key: string) | Drop(key: string) | Restore(key: string, slug: string)

  /** What callers see to: a remembered label is free, a restored one not given to another key meanwhile. */
  ghost predicate Asked(s: Slugs, op: Op) {
    match op
    case Remember(_, slug) => !InUse(s, slug)
    case Restore(key, slug) => forall k :: k in s.issued && k != key ==> s.issued[k] != slug
    case _ => true
  }

  ghost predicate Steps(s: Slugs, op: Op, t: Slugs) {
    match op
    case Allocate(key) => t.next > 1 && IsNext(s, t.next - 1) && t == s.(issued := s.issued[key := NumberedSlug(t.next - 1)], next := t.next)
    case Remember(key, slug) => t == s.(issued := s.issued[key := slug])
    case Forget(key) => t == Forgotten(s, key)
    case Drop(key) => t == s.(issued := s.issued - {key})
    case Restore(key, slug) => t == Restored(s, key, slug)
  }

  lemma {:induction false} UnspentIs(retired: seq<string>, slug: string)
    ensures forall l :: l in Unspent(retired, slug) <==> l in retired && l != slug
    ensures Distinct(retired) ==> Distinct(Unspent(retired, slug))
    ensures slug !in retired ==> Unspent(retired, slug) == retired && Unspent(retired + [slug], slug) == retired
  {
    if retired != [] {
      var rest := retired[1..];
      assert retired == [retired[0]] + rest;
      assert forall j :: 0 <= j < |rest| ==> rest[j] == retired[j + 1];
      assert (retired + [slug])[1..] == rest + [slug];
      UnspentIs(rest, slug);
      if Distinct(retired) {
        forall j | 0 <= j < |Unspent(rest, slug)| ensures Unspent(rest, slug)[j] != retired[0] {
          assert Unspent(rest, slug)[j] in rest;
        }
      }
    }
  }

  /** Every operation keeps the labels apart. */
  lemma {:induction false} StepKeepsConsistent(s: Slugs, op: Op, t: Slugs)
    requires Consistent(s) && Asked(s, op) && Steps(s, op, t)
    ensures Consistent(t) && t.next >= s.next
  {
    match op
    case Restore(key, slug) => UnspentIs(s.retired, slug);
    case Allocate(key) => assert NumberedSlug(t.next - 1) !in s.issued.Values;
    case Remember(key, slug) => assert slug !in s.issued.Values;
    case _ =>
  }

  ghost predicate IsRun(run: seq<Slugs>, ops: seq<Op>) {
    && |run| == |ops| + 1 && Consistent(run[0])
    && forall i :: 0 <= i < |ops| ==> Asked(run[i], ops[i]) && Steps(run[i], ops[i], run[i + 1])
  }

  lemma {:induction false} RunStaysConsistent(run: seq<Slugs>, ops: seq<Op>, i: nat, j: nat)
    requires IsRun(run, ops) && i <= j < |run|
    ensures Consistent(run[j]) && run[j].next >= run[i].next
    decreases j
  {
    if j > 0 {
      RunStaysConsistent(run, ops, if i < j then i else j - 1, j - 1);
      StepKeepsConsistent(run[j - 1], ops[j - 1], run[j]);
    }
  }

  /** No label is ever allocated twice, even one that was dropped in between. */
  lemma {:induction false} AllocatedOnce(run: seq<Slugs>, ops: seq<Op>, i: nat, j: nat)
    requires IsRun(run, ops) && i < j < |ops| && ops[i].Allocate? && ops[j].Allocate?
    ensures Slug(run[i + 1], ops[i].key) != Slug(run[j + 1], ops[j].key)
  {
    RunStaysConsistent(run, ops, i + 1, j);
    var m, n := run[i + 1].next - 1, run[j + 1].next - 1;
    if NumberedSlug(m) == NumberedSlug(n) {
      NumberedSlugInjective(m, n);
    }
  }

  /** Forgetting a label and restoring it when it was one, as a failed save does, changes nothing, unless the label was empty. */
  lemma {:induction false} RestoreUndoesForget(s: Slugs, key: string)
    requires Consistent(s)
    ensures var slug := Slug(s, key);
      (if slug != "" then Restored(Forgotten(s, key), key, slug) else Forgotten(s, key)) == s <==> (key in s.issued ==> slug != "")
  {
    var slug := Slug(s, key);
    if slug != "" {
      UnspentIs(s.retired, slug);
      assert (s.issued - {key})[key := slug] == s.issued;
    } else if key in s.issued {
      assert key !in Forgotten(s, key).issued;
    } else {
      assert s.issued - {key} == s.issued;
    }
  }
}
