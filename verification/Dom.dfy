/** The parsed tree the writes work on: nodes with parent links and ordered children. */
module Dom {
  import opened PageTree
  import opened Sequences
  import opened Values

  datatype Attr = Attr(key: string, value: string)

  datatype NodeData = Document | Doctype | Comment(data: string) | Text(data: string) | Element(tag: string, attrs: seq<Attr>)

  datatype Dom = Dom(nodes: map<Id, NodeData>, kids: map<Id, seq<Id>>, parent: map<Id, Id>)

  function Kids(dom: Dom, p: Id): seq<Id> {
    if p in dom.kids then dom.kids[p] else []
  }

  /** Children and parent links agree. */
  ghost predicate Sound(dom: Dom) {
    && (forall p :: p in dom.kids ==> NoRepeats(dom.kids[p]))
    && (forall p, c {:trigger c in dom.kids[p]} :: p in dom.kids && c in dom.kids[p] ==> c in dom.nodes && c in dom.parent && dom.parent[c] == p)
    && (forall c :: c in dom.parent ==> dom.parent[c] in dom.kids && c in dom.kids[dom.parent[c]])
  }

  function Detached(dom: Dom, n: Id): Dom
    requires n in dom.parent ==> dom.parent[n] in dom.kids
  {
    if n !in dom.parent then dom
    else dom.(kids := dom.kids[dom.parent[n] := Without(dom.kids[dom.parent[n]], n)], parent := dom.parent - {n})
  }

  function Placed(dom: Dom, p: Id, n: Id, at: nat): Dom
    requires at <= |Kids(dom, p)|
  {
    dom.(kids := dom.kids[p := Kids(dom, p)[..at] + [n] + Kids(dom, p)[at..]], parent := dom.parent[n := p])
  }

  lemma {:induction false} DetachedSound(dom: Dom, n: Id)
    requires Sound(dom)
    ensures var after := Detached(dom, n);
      && Sound(after) && n !in after.parent
      && (forall p :: Kids(after, p) == if n in dom.parent && p == dom.parent[n] then Without(Kids(dom, p), n) else Kids(dom, p))
  {
    if n in dom.parent {
      WithoutMembers(dom.kids[dom.parent[n]], n);
      WithoutDistinct(dom.kids[dom.parent[n]], n);
    }
  }

  lemma {:induction false} PlacedSound(dom: Dom, p: Id, n: Id, at: nat)
    requires Sound(dom) && n in dom.nodes && n !in dom.parent && at <= |Kids(dom, p)|
    ensures var after := Placed(dom, p, n, at);
      && Sound(after)
      && (forall q :: Kids(after, q) == if q == p then Kids(dom, p)[..at] + [n] + Kids(dom, p)[at..] else Kids(dom, q))
  {
    var ks, after := Kids(dom, p), Placed(dom, p, n, at);
    assert n !in ks;
    Interposed(ks, n, at);
    forall c | c in after.parent ensures after.parent[c] in after.kids && c in after.kids[after.parent[c]] {
    }
  }

  lemma {:induction false} Interposed(ks: seq<Id>, n: Id, at: nat)
    requires NoRepeats(ks) && n !in ks && at <= |ks|
    ensures NoRepeats(ks[..at] + [n] + ks[at..])
    ensures forall x :: x in ks[..at] + [n] + ks[at..] <==> x == n || x in ks
  {
    assert ks == ks[..at] + ks[at..];
  }

  /** Position of `x`, -1 when it is not there. */
  function IndexOf(xs: seq<Id>, x: Id): (i: int)
    ensures -1 <= i < |xs|
    ensures i >= 0 ==> xs[i] == x && x !in xs[..i]
    ensures i == -1 <==> x !in xs
  {
    if xs == [] then -1
    else
      assert xs == [xs[0]] + xs[1..];
      if xs[0] == x then 0
      else
        var rest := IndexOf(xs[1..], x);
        assert rest >= 0 ==> xs[..rest + 1] == [xs[0]] + xs[1..][..rest];
        if rest == -1 then -1 else rest + 1
  }

  function NextSibling(dom: Dom, n: Id): Option<Id> {
    if n !in dom.parent then None
    else
      var ks := Kids(dom, dom.parent[n]);
      var i := IndexOf(ks, n);
      if 0 <= i < |ks| - 1 then Some(ks[i + 1]) else None
  }

  // ----- attributes -----

  function AttrValue(attrs: seq<Attr>, key: string): Option<string> {
    if attrs == [] then None
    else if attrs[0].key == key then Some(attrs[0].value)
    else AttrValue(attrs[1..], key)
  }

  function SetAttr(attrs: seq<Attr>, key: string, value: string): seq<Attr> {
    if attrs == [] then [Attr(key, value)]
    else if attrs[0].key == key then [Attr(key, value)] + attrs[1..]
    else [attrs[0]] + SetAttr(attrs[1..], key, value)
  }

  function RemoveAttr(attrs: seq<Attr>, key: string): seq<Attr> {
    if attrs == [] then []
    else if attrs[0].key == key then attrs[1..]
    else [attrs[0]] + RemoveAttr(attrs[1..], key)
  }

  lemma {:induction false} RemoveAttrKeeps(attrs: seq<Attr>, key: string, other: string)
    requires key != other
    ensures AttrValue(RemoveAttr(attrs, key), other) == AttrValue(attrs, other)
  {
    if attrs != [] && attrs[0].key != key {
      RemoveAttrKeeps(attrs[1..], key, other);
    }
  }

  lemma {:induction false} SetAttrReads(attrs: seq<Attr>, key: string, value: string, other: string)
    ensures AttrValue(SetAttr(attrs, key, value), other) == if other == key then Some(value) else AttrValue(attrs, other)
  {
    if attrs != [] && attrs[0].key != key {
      SetAttrReads(attrs[1..], key, value, other);
    }
  }

  // ----- what the data API sees -----

  /** The element opts out of the data API; `tokens` splits a clay attribute at white space. */
  predicate NoData(c: NodeData, tokens: string -> set<string>) {
    && c.Element?
    && (|| AttrValue(c.attrs, "no-data").Some?
        || AttrValue(c.attrs, "editor-ui").Some?
        || (var clay := AttrValue(c.attrs, "clay");
            clay.Some? && ("no-data" in tokens(clay.value) || "editor-ui" in tokens(clay.value))))
  }

  function AllElements(dom: Dom): set<Id> {
    set n | n in dom.nodes && dom.nodes[n].Element?
  }

  function Shown(dom: Dom, tokens: string -> set<string>): set<Id> {
    set n | n in dom.nodes && dom.nodes[n].Element? && !NoData(dom.nodes[n], tokens)
  }

  function ElementChildren(dom: Dom, p: Id): seq<Id> {
    Kept(Kids(dom, p), AllElements(dom))
  }

  /** The element children the data API counts. */
  ghost function ContentChildren(dom: Dom, tokens: string -> set<string>, p: Id): seq<Id> {
    Kept(Kids(dom, p), Shown(dom, tokens))
  }

  /** The text, the comments and the elements that opted out. */
  ghost function Others(dom: Dom, tokens: string -> set<string>, p: Id): seq<Id> {
    Kept(Kids(dom, p), dom.nodes.Keys - Shown(dom, tokens))
  }

  predicate AnyNoData(dom: Dom, tokens: string -> set<string>, all: seq<Id>) {
    exists c :: c in all && c in dom.nodes && NoData(dom.nodes[c], tokens)
  }

  /** All element children, and when one of them opted out, those that did not. */
  function AdapterChildren(dom: Dom, tokens: string -> set<string>, p: Id): (children: seq<Id>)
    ensures children == ContentChildren(dom, tokens, p)
  {
    var all := ElementChildren(dom, p);
    KeptTwice(Kids(dom, p), AllElements(dom), Shown(dom, tokens));
    KeptMembers(Kids(dom, p), AllElements(dom));
    if AnyNoData(dom, tokens, all) then Kept(all, Shown(dom, tokens))
    else
      KeptAgree(all, AllElements(dom), Shown(dom, tokens));
      KeptAll(all, AllElements(dom));
      all
  }
}
