/**
 A page projected onto local runtime URLs and turned back (ProjectRuntimeHTML and CanonicalizeRuntimeHTML of
 internal/clayruntime/html.go). The bytes come back exactly when the page has no descriptor of its own, every
 attribute's URL comes back and its spelling can be written again.
 */
module RuntimePage {
  import opened RuntimeHtml
  import opened Sequences
  import opened TextSplice
  import opened Values
  import Url = RuntimeUrl

  /** One attribute a scan found: where its text stands, the text, what it reads as, and how it is quoted. */
  datatype Attribute = Attribute(from: nat, to: nat, raw: string, value: string, quote: Quote)

  /** A candidate of the projection and where its tag begins. */
  datatype Candidate = Candidate(tag: nat, here: Attribute)

  /** What a scan finds, in the order of the page: a candidate, or a descriptor with its text and the JSON it holds. */
  datatype Mark = Tag(c: Candidate) | Map(from: nat, to: nat, text: string, json: string)

  datatype Options = Options(releases: map<string, Url.Release>, selected: string, origin: string, utf8: string -> bool)

  datatype Reason = ReleaseMissing | PathMissing | MixedVersions

  datatype Projection = Unavailable(reason: Reason) | Untouched | Projected(html: string, mappings: seq<Url.Entry>)

  // ----- what a projection does -----

  /** What a candidate says of the page: nothing, that a file is not there, or which release it wants. */
  datatype Look = Nothing | Pathless | Wants(version: string, missing: bool)

  function ResolvedAs(c: Candidate, o: Options): Option<Url.Resolution> {
    Url.Resolve(c.here.value, o.releases, o.selected, o.origin, o.utf8)
  }

  function LookAt(c: Candidate, o: Options): Look {
    match ResolvedAs(c, o)
    case None =>
      var parsed := Url.Parse(c.here.value, o.origin, o.utf8);
      if parsed.Some? && !parsed.value.kind.Local? then Pathless else Nothing
    case Some(Alias(version, _, _)) => Wants(version, false)
    case Some(Available(_, version, _)) => Wants(version, false)
    case Some(Absent(parsed)) => Wants(parsed.version, true)
  }

  function LookOf(o: Options): Candidate -> Look {
    c => LookAt(c, o)
  }

  /** The local URL of each URL, none for one that is left alone. */
  type Serve = string -> Option<string>

  function ServeOf(o: Options): Serve {
    value => Url.Served(value, o.releases, o.selected, o.origin, o.utf8)
  }

  ghost predicate Differ(a: Look, b: Look) {
    a.Wants? && b.Wants? && a.version != b.version
  }

  ghost predicate Mixed(cs: seq<Candidate>, look: Candidate -> Look) {
    exists i, j :: 0 <= i < j < |cs| && Differ(look(cs[i]), look(cs[j]))
  }

  predicate Missing(l: Look) {
    l.Wants? && l.missing
  }

  /** Why a page is not projected at all. */
  ghost function Refusal(cs: seq<Candidate>, look: Candidate -> Look): Option<Reason> {
    if exists i :: 0 <= i < |cs| && Missing(look(cs[i])) then Some(ReleaseMissing)
    else if exists i :: 0 <= i < |cs| && look(cs[i]) == Pathless then Some(PathMissing)
    else if Mixed(cs, look) then Some(MixedVersions)
    else None
  }

  function Mappings(cs: seq<Candidate>, serve: Serve): seq<Url.Entry> {
    if cs == [] then []
    else (if serve(cs[0].here.value).Some? then [Url.Entry(Some(cs[0].here.value), serve(cs[0].here.value))] else []) + Mappings(cs[1..], serve)
  }

  /** The splices of the attributes. */
  function Moves(cs: seq<Candidate>, serve: Serve): seq<Edit<char>> {
    if cs == [] then []
    else
      var a := cs[0].here;
      (if serve(cs[0].here.value).Some? then [Edit(a.from, a.to, Respelled(a.raw, a.value, serve(cs[0].here.value).value, a.quote))] else [])
      + Moves(cs[1..], serve)
  }

  function Candidates(marks: seq<Mark>): seq<Candidate> {
    if marks == [] then [] else (if marks[0].Tag? then [marks[0].c] else []) + Candidates(marks[1..])
  }

  /** The page has a descriptor of its own. */
  predicate HasMap(marks: seq<Mark>) {
    exists i :: 0 <= i < |marks| && marks[i].Map?
  }

  /**
   Marks as a scan finds them, apart and in order: a candidate's value lies in its tag and is ended by its
   quote or what ends a bare value; a descriptor reaches from its start tag to past its end tag.
   */
  ghost predicate Scanned(src: string, marks: seq<Mark>, from: nat) {
    marks != [] ==>
      match marks[0]
      case Tag(c) =>
        && from <= c.tag < c.here.from <= c.here.to < |src| && Stand(src, c.here)
        && Scanned(src, marks[1..], c.here.to + 1)
      case Map(start, end, text, _) =>
        && from <= start < end <= |src| && src[start..end] == text
        && Scanned(src, marks[1..], end)
  }

  predicate Stand(src: string, a: Attribute)
    requires a.from <= a.to < |src|
  {
    src[a.from..a.to] == a.raw && Ends(src[a.to], a.quote) && Fits(a.raw, a.quote)
  }

  // ----- splices with room between them -----

  /** Where the next splice may begin: not within this one, nor where it begins. */
  function Past(e: Edit<char>): nat {
    if e.start < e.end then e.end else e.end + 1
  }

  /** Each begins past the one before it. */
  ghost predicate Gapped(edits: seq<Edit<char>>, from: nat) {
    edits != [] ==> from <= edits[0].start <= edits[0].end && Gapped(edits[1..], Past(edits[0]))
  }

  lemma {:induction false} GappedSooner(edits: seq<Edit<char>>, from: nat, sooner: nat)
    requires Gapped(edits, from) && sooner <= from
    ensures Gapped(edits, sooner)
  {
  }

  lemma {:induction false} GappedStarts(edits: seq<Edit<char>>, from: nat, i: nat)
    requires Gapped(edits, from) && i < |edits|
    ensures from <= edits[i].start <= edits[i].end
    decreases i
  {
    if i > 0 {
      GappedStarts(edits[1..], Past(edits[0]), i - 1);
    }
  }

  lemma {:induction false} GappedInOrder(edits: seq<Edit<char>>, from: nat, i: nat, j: nat)
    requires Gapped(edits, from) && i < j < |edits|
    ensures edits[i].start <= edits[i].end <= edits[j].start && edits[i].start < edits[j].start
    decreases i
  {
    if i == 0 {
      GappedStarts(edits[1..], Past(edits[0]), j - 1);
    } else {
      GappedInOrder(edits[1..], Past(edits[0]), i - 1, j - 1);
    }
  }

  lemma {:induction false} GappedInText(edits: seq<Edit<char>>, from: nat, upto: nat)
    requires Gapped(edits, from) && forall e :: e in edits ==> e.end <= upto
    ensures InText(edits, upto)
  {
    forall i | 0 <= i < |edits| ensures edits[i].start <= edits[i].end <= upto {
      GappedStarts(edits, from, i);
    }
    forall i, j | 0 <= i < j < |edits| ensures edits[i].end <= edits[j].start && edits[i].start < edits[j].start {
      GappedInOrder(edits, from, i, j);
      GappedStarts(edits, from, i);
    }
    AscendingFromPairs(edits, 0, upto);
  }

  // ----- a rewrite and its way back -----

  /**
   What one stretch of the page goes through: `edit` is made, unless it is not `moved`; then, `pre`
   characters in from either side, it gives way to `back`, unless that is not `again`. `reading` is what
   a scan finds there in between.
   */
  datatype Stretch = Stretch(edit: Edit<char>, moved: bool, pre: nat, back: string, again: bool, reading: Reading)

  /** The value of an attribute and how it is quoted, or the JSON of a descriptor. */
  datatype Reading = URL(value: string, quote: Quote) | JSON(json: string)

  type Swap = s: Stretch | 2 * s.pre <= |s.edit.text| witness Stretch(Edit(0, 0, ""), false, 0, "", false, JSON(""))

  /** What stands there in the end. */
  function Final(s: Swap): string {
    s.edit.text[..s.pre] + s.back + s.edit.text[|s.edit.text| - s.pre..]
  }

  /** The text between the quotes, when quotes were put in. */
  function InnerOf(s: Swap): string {
    s.edit.text[s.pre..|s.edit.text| - s.pre]
  }

  function There(swaps: seq<Swap>): (edits: seq<Edit<char>>)
    ensures |edits| == |swaps|
  {
    if swaps == [] then [] else [swaps[0].edit] + There(swaps[1..])
  }

  function Whole(swaps: seq<Swap>): (edits: seq<Edit<char>>)
    ensures |edits| == |swaps|
  {
    if swaps == [] then []
    else [Edit(swaps[0].edit.start, swaps[0].edit.end, Final(swaps[0]))] + Whole(swaps[1..])
  }

  /** Where the stretch begins, when the source's text from `from` on stands from `pos` on. */
  function Moved(s: Swap, from: nat, pos: nat): nat {
    if from <= s.edit.start then pos + (s.edit.start - from) else pos
  }

  function BackEdit(s: Swap, at: nat): Edit<char> {
    Edit(at + s.pre, at + |s.edit.text| - s.pre, s.back)
  }

  function Again(from: nat, pos: nat, swaps: seq<Swap>): (edits: seq<Edit<char>>)
    ensures |edits| == |swaps|
    decreases |swaps|
  {
    if swaps == [] then []
    else
      var at := Moved(swaps[0], from, pos);
      [BackEdit(swaps[0], at)] + Again(swaps[0].edit.end, at + |swaps[0].edit.text|, swaps[1..])
  }

  /** Behind an attribute there is always what ends it. */
  ghost predicate RoomBehind(src: string, swaps: seq<Swap>)
    requires swaps != []
  {
    var end := swaps[0].edit.end;
    && (|swaps| > 1 ==> end <= swaps[1].edit.start)
    && (swaps[0].reading.URL? ==> end < |src|)
    && (|swaps| > 1 && (swaps[0].reading.URL? || swaps[0].edit.start == end || swaps[0].edit.text == "") ==> end < swaps[1].edit.start)
  }

  /** The page from `pos` on is the source from `from` on with every first edit made. */
  ghost predicate Sits(src: string, from: nat, swaps: seq<Swap>, out: string, pos: nat)
    decreases |swaps|
  {
    && from <= |src| && pos <= |out|
    && if swaps == [] then out[pos..] == src[from..]
       else
         var s, at := swaps[0], Moved(swaps[0], from, pos);
         var past := at + |s.edit.text|;
         && from <= s.edit.start <= s.edit.end <= |src| && past <= |out| && RoomBehind(src, swaps)
         && out[pos..at] == src[from..s.edit.start] && out[at..past] == s.edit.text
         && Sits(src, s.edit.end, swaps[1..], out, past)
  }

  lemma {:induction false} GappedAscends(edits: seq<Edit<char>>, from: nat, upto: nat)
    requires Gapped(edits, from) && from <= upto && forall e :: e in edits ==> e.end <= upto
    ensures Ascending(edits, from, upto)
  {
    if edits != [] {
      var rest := edits[1..];
      assert edits[0] in edits && forall e :: e in rest ==> e in edits;
      GappedSooner(rest, Past(edits[0]), edits[0].end);
      GappedAscends(rest, edits[0].end, upto);
    }
  }

  lemma {:induction false} SitsPatched(src: string, from: nat, swaps: seq<Swap>, out: string, pos: nat)
    requires Gapped(There(swaps), from) && AllRoom(src, swaps) && Ascending(There(swaps), from, |src|)
    requires from <= |src| && pos <= |out| && out[pos..] == Patched(src, from, There(swaps))
    ensures Sits(src, from, swaps, out, pos)
    decreases |swaps|
  {
    if swaps != [] {
      var s, rest := swaps[0], swaps[1..];
      assert There(swaps)[1..] == There(rest);
      GappedSooner(There(rest), Past(s.edit), s.edit.end);
      Landmarks(out, pos, src[from..s.edit.start], s.edit.text, Patched(src, s.edit.end, There(rest)));
      SitsPatched(src, s.edit.end, rest, out, Moved(s, from, pos) + |s.edit.text|);
    }
  }

  ghost predicate AllRoom(src: string, swaps: seq<Swap>) {
    swaps != [] ==> swaps[0].edit.end <= |src| && RoomBehind(src, swaps) && AllRoom(src, swaps[1..])
  }

  lemma {:induction false} Landmarks(out: string, pos: nat, kept: string, text: string, more: string)
    requires pos <= |out| && out[pos..] == kept + text + more
    ensures pos + |kept| + |text| <= |out|
    ensures out[pos..pos + |kept|] == kept && out[pos + |kept|..pos + |kept| + |text|] == text && out[pos + |kept| + |text|..] == more
  {
    var rest := out[pos..];
    assert rest[..|kept|] == kept;
    assert rest[|kept|..|kept| + |text|] == text;
    assert rest[|kept| + |text|..] == more;
  }

  lemma {:induction false} AgainGapped(src: string, from: nat, swaps: seq<Swap>, out: string, pos: nat)
    requires Sits(src, from, swaps, out, pos)
    ensures var gap := if swaps == [] then 0 else swaps[0].edit.start - from; Gapped(Again(from, pos, swaps), pos + gap)
    ensures forall e :: e in Again(from, pos, swaps) ==> e.end <= |out|
    decreases |swaps|
  {
    if swaps != [] {
      var s, rest := swaps[0], swaps[1..];
      var past := Moved(s, from, pos) + |s.edit.text|;
      AgainGapped(src, s.edit.end, rest, out, past);
      var later := Again(s.edit.end, past, rest);
      assert Again(from, pos, swaps)[1..] == later;
      if rest != [] {
        GappedSooner(later, past + (rest[0].edit.start - s.edit.end), Past(BackEdit(s, past - |s.edit.text|)));
      }
    }
  }

  /** Making the second edits in the page the first ones left is making both at once. */
  lemma {:induction false} TwiceIsOnce(src: string, from: nat, swaps: seq<Swap>, out: string, pos: nat)
    requires Sits(src, from, swaps, out, pos)
    ensures Ascending(Again(from, pos, swaps), pos, |out|) && Ascending(Whole(swaps), from, |src|)
    ensures Patched(out, pos, Again(from, pos, swaps)) == Patched(src, from, Whole(swaps))
    decreases |swaps|
  {
    if swaps != [] {
      var s, rest, at := swaps[0], swaps[1..], Moved(swaps[0], from, pos);
      var past := at + |s.edit.text|;
      TwiceIsOnce(src, s.edit.end, rest, out, past);
      OneBack(out, pos, at, s, Again(s.edit.end, past, rest));
      OneWhole(src, from, s, Whole(rest));
      assert Again(from, pos, swaps) == [BackEdit(s, at)] + Again(s.edit.end, past, rest);
      assert Whole(swaps) == [Edit(s.edit.start, s.edit.end, Final(s))] + Whole(rest);
    }
  }

  /** The second edit of one stretch, in front of those behind it. */
  lemma {:induction false} OneBack(out: string, pos: nat, at: nat, s: Swap, later: seq<Edit<char>>)
    requires pos <= at && at + |s.edit.text| <= |out| && Ascending(later, at + |s.edit.text|, |out|)
    requires out[at..at + |s.edit.text|] == s.edit.text
    ensures var edits := [BackEdit(s, at)] + later;
      Ascending(edits, pos, |out|) && Patched(out, pos, edits) == out[pos..at] + Final(s) + Patched(out, at + |s.edit.text|, later)
  {
    var b, text := BackEdit(s, at), s.edit.text;
    Cut(out, pos, at, at + |text|, s.pre, text);
    BehindBack(out, at, s, later);
    OneInFront(out, pos, b, later);
    FivePieces(out[pos..at], text[..s.pre], s.back, text[|text| - s.pre..], Patched(out, at + |text|, later));
  }

  lemma {:induction false} OneInFront(src: string, from: nat, e: Edit<char>, later: seq<Edit<char>>)
    requires from <= e.start <= e.end <= |src| && Ascending(later, e.end, |src|)
    ensures Ascending([e] + later, from, |src|) && Patched(src, from, [e] + later) == src[from..e.start] + e.text + Patched(src, e.end, later)
  {
    assert ([e] + later)[1..] == later;
  }

  lemma {:induction false} BehindBack(out: string, at: nat, s: Swap, later: seq<Edit<char>>)
    requires at + |s.edit.text| <= |out| && Ascending(later, at + |s.edit.text|, |out|)
    ensures Ascending(later, BackEdit(s, at).end, |out|)
    ensures Patched(out, BackEdit(s, at).end, later) == out[BackEdit(s, at).end..at + |s.edit.text|] + Patched(out, at + |s.edit.text|, later)
  {
    PatchedFrom(out, BackEdit(s, at).end, at + |s.edit.text|, later);
  }

  lemma {:induction false} OneWhole(src: string, from: nat, s: Swap, later: seq<Edit<char>>)
    requires from <= s.edit.start <= s.edit.end <= |src| && Ascending(later, s.edit.end, |src|)
    ensures var edits := [Edit(s.edit.start, s.edit.end, Final(s))] + later;
      Ascending(edits, from, |src|) && Patched(src, from, edits) == src[from..s.edit.start] + Final(s) + Patched(src, s.edit.end, later)
  {
    OneInFront(src, from, Edit(s.edit.start, s.edit.end, Final(s)), later);
  }

  lemma {:induction false} Cut(out: string, pos: nat, at: nat, past: nat, pre: nat, text: string)
    requires pos <= at <= past <= |out| && out[at..past] == text && 2 * pre <= |text|
    ensures out[pos..at + pre] == out[pos..at] + text[..pre] && out[past - pre..past] == text[|text| - pre..]
    ensures out[at + pre..past - pre] == text[pre..|text| - pre]
  {
    assert forall i :: 0 <= i < |text| ==> text[i] == out[at + i];
  }

  lemma {:induction false} FivePieces(a: string, b: string, c: string, d: string, more: string)
    ensures (a + b) + c + (d + more) == a + (b + c + d) + more
  {
  }

  // ----- leaving out what changes nothing -----

  function Chosen(edits: seq<Edit<char>>, flags: seq<bool>): seq<Edit<char>>
    requires |flags| == |edits|
  {
    if edits == [] then [] else (if flags[0] then [edits[0]] else []) + Chosen(edits[1..], flags[1..])
  }

  lemma {:induction false} ChosenAmong(edits: seq<Edit<char>>, flags: seq<bool>, from: nat)
    requires |flags| == |edits| && Gapped(edits, from)
    ensures Gapped(Chosen(edits, flags), from) && forall e :: e in Chosen(edits, flags) ==> e in edits
  {
    if edits != [] {
      var rest := Chosen(edits[1..], flags[1..]);
      assert edits == [edits[0]] + edits[1..];
      ChosenAmong(edits[1..], flags[1..], Past(edits[0]));
      if flags[0] {
        assert Chosen(edits, flags)[1..] == rest;
      } else {
        assert Chosen(edits, flags) == rest;
        GappedSooner(rest, Past(edits[0]), from);
      }
    }
  }

  /** An edit that puts back what stands there can be left out. */
  lemma {:induction false} DropIdle(src: string, from: nat, edits: seq<Edit<char>>, flags: seq<bool>)
    requires |flags| == |edits| && Ascending(edits, from, |src|)
    requires forall i :: 0 <= i < |edits| && !flags[i] ==> IdleIn(src, edits[i])
    ensures Ascending(Chosen(edits, flags), from, |src|) && Patched(src, from, Chosen(edits, flags)) == Patched(src, from, edits)
    decreases |edits|
  {
    if edits != [] {
      AscendingWithin(edits, from, |src|);
      var e, rest := edits[0], Chosen(edits[1..], flags[1..]);
      DropIdle(src, e.end, edits[1..], flags[1..]);
      if flags[0] {
        assert Chosen(edits, flags)[1..] == rest;
      } else {
        assert Chosen(edits, flags) == rest;
        PatchedFrom(src, from, e.end, rest);
        assert src[from..e.end] == src[from..e.start] + e.text;
      }
    }
  }

  // ----- turning the page back -----

  /** What the way back knows: the descriptor's entries, the releases, the document's own origin. */
  datatype Way = Way(entries: seq<Url.Entry>, releases: map<string, Url.Release>, origin: string, utf8: string -> bool)

  /** What the way back is told: all but the descriptor, which it reads itself; `parse` reads its JSON. */
  datatype Home = Home(releases: map<string, Url.Release>, origin: string, utf8: string -> bool, parse: string -> Option<seq<Url.Entry>>)

  /** The entries of the first descriptor; JSON that cannot be read has none. */
  function EntriesOf(json: Option<string>, h: Home): seq<Url.Entry> {
    if json.None? || h.parse(json.value).None? then [] else h.parse(json.value).value
  }

  function WayOf(json: Option<string>, h: Home): Way {
    Way(EntriesOf(json, h), h.releases, h.origin, h.utf8)
  }

  /** A descriptor found by the way back's scan. */
  datatype Span = Span(from: nat, to: nat, json: string)

  function FirstJSON(spans: seq<Span>): Option<string> {
    if spans == [] then None else Some(spans[0].json)
  }

  function Canon(value: string, w: Way): string {
    Url.Canonical(value, w.entries, w.releases, w.origin, w.utf8)
  }

  /** What a URL is turned into, and how that is written where the first text stood. */
  datatype Turning = Turning(canon: string -> string, write: (string, string, Quote) -> string)

  function TurningOf(w: Way): Turning {
    Turning(value => Canon(value, w), (raw, value, quote) => Respelled(raw, value, Canon(value, w), quote))
  }

  function Removals(spans: seq<Span>): seq<Edit<char>> {
    if spans == [] then [] else [Edit(spans[0].from, spans[0].to, "")] + Removals(spans[1..])
  }

  function Returned(a: Attribute, t: Turning): seq<Edit<char>> {
    if t.canon(a.value) == a.value then [] else [Edit(a.from, a.to, t.write(a.raw, a.value, a.quote))]
  }

  function Returns(found: seq<Attribute>, t: Turning): seq<Edit<char>> {
    if found == [] then [] else Returned(found[0], t) + Returns(found[1..], t)
  }

  lemma {:induction false} RemovalsNext(spans: seq<Span>, i: nat)
    requires i < |spans|
    ensures Removals(spans[..i + 1]) == Removals(spans[..i]) + [Edit(spans[i].from, spans[i].to, "")]
  {
    if i == 0 {
      assert spans[..1] == [spans[0]];
    } else {
      RemovalsNext(spans[1..], i - 1);
      assert spans[..i + 1][1..] == spans[1..][..i] && spans[..i][1..] == spans[1..][..i - 1];
    }
  }

  lemma {:induction false} ReturnsNext(found: seq<Attribute>, t: Turning, i: nat)
    requires i < |found|
    ensures Returns(found[..i + 1], t) == Returns(found[..i], t) + Returned(found[i], t)
  {
    if i == 0 {
      assert found[..1] == [found[0]];
    } else {
      ReturnsNext(found[1..], t, i - 1);
      assert found[..i + 1][1..] == found[1..][..i] && found[..i][1..] == found[1..][..i - 1];
    }
  }

  /** What the way back makes of one attribute. */
  method TurnBack(a: Attribute, w: Way) returns (splices: seq<Edit<char>>)
    ensures splices == Returned(a, TurningOf(w))
  {
    var parsed := Url.Parse(a.value, w.origin, w.utf8);
    if parsed.None? || !parsed.value.kind.Local? {
      return [];
    }
    var replacement := Url.CanonicalizeRuntimeURL(a.value, w.entries, w.releases, w.origin, w.utf8);
    if replacement == a.value {
      return [];
    }
    var text := Respell(a.raw, a.value, replacement, a.quote);
    return [Edit(a.from, a.to, text)];
  }

  /**
   CanonicalizeRuntimeHTML on what its scan found: the first descriptor is read, all of them go, and every
   attribute is turned back by that one. The order of the splices is left to `ApplySplices`.
   */
  method CanonicalizePage(html: string, spans: seq<Span>, found: seq<Attribute>, h: Home, ghost edits: seq<Edit<char>>) returns (out: string)
    requires InText(edits, |html|)
    requires multiset(Removals(spans)) + multiset(Returns(found, TurningOf(WayOf(FirstJSON(spans), h)))) == multiset(edits)
    ensures out == Patched(html, 0, edits)
  {
    var splices: seq<Edit<char>> := [];
    var entries: seq<Url.Entry> := [];
    var removed := false;
    for i := 0 to |spans|
      invariant splices == Removals(spans[..i]) && removed == (i > 0)
      invariant entries == if i == 0 then [] else EntriesOf(FirstJSON(spans), h)
    {
      if !removed {
        entries := EntriesOf(Some(spans[i].json), h);
      }
      removed := true;
      RemovalsNext(spans, i);
      splices := splices + [Edit(spans[i].from, spans[i].to, "")];
    }
    assert spans[..|spans|] == spans;
    var turned := TurnAll(found, Way(entries, h.releases, h.origin, h.utf8));
    out := ApplySplices(html, splices + turned, edits);
  }

  method TurnAll(found: seq<Attribute>, w: Way) returns (turned: seq<Edit<char>>)
    ensures turned == Returns(found, TurningOf(w))
  {
    turned := [];
    for i := 0 to |found|
      invariant turned == Returns(found[..i], TurningOf(w))
    {
      ReturnsNext(found, TurningOf(w), i);
      var more := TurnBack(found[i], w);
      turned := turned + more;
    }
    assert found[..|found|] == found;
  }

  // ----- what a scan of the projected page finds -----

  function Rescan(from: nat, pos: nat, swaps: seq<Swap>): seq<Attribute>
    decreases |swaps|
  {
    if swaps == [] then []
    else
      var s, at := swaps[0], Moved(swaps[0], from, pos);
      (if s.reading.URL? then [Attribute(at + s.pre, at + |s.edit.text| - s.pre, InnerOf(s), s.reading.value, s.reading.quote)] else [])
      + Rescan(s.edit.end, at + |s.edit.text|, swaps[1..])
  }

  function Spans(from: nat, pos: nat, swaps: seq<Swap>): seq<Span>
    decreases |swaps|
  {
    if swaps == [] then []
    else
      var s, at := swaps[0], Moved(swaps[0], from, pos);
      (if s.reading.URL? then [] else [Span(at, at + |s.edit.text|, s.reading.json)]) + Spans(s.edit.end, at + |s.edit.text|, swaps[1..])
  }

  /** The second edit is the one the way back makes of what is read there; a descriptor is taken out. */
  ghost predicate Coherent(s: Swap, t: Turning) {
    match s.reading
    case JSON(_) => s.pre == 0 && s.back == "" && s.again
    case URL(value, quote) =>
      && s.back == t.write(InnerOf(s), value, quote)
      && s.again == (t.canon(value) != value)
  }

  function AgainFlags(swaps: seq<Swap>): (flags: seq<bool>)
    ensures |flags| == |swaps| && forall i :: 0 <= i < |flags| ==> flags[i] == swaps[i].again
  {
    seq(|swaps|, i requires 0 <= i < |swaps| => swaps[i].again)
  }

  /** A URL that stays as it is leaves the text as it is. */
  ghost predicate Faithful(t: Turning) {
    forall raw, value, quote {:trigger t.write(raw, value, quote)} :: t.canon(value) == value ==> t.write(raw, value, quote) == raw
  }

  lemma {:induction false} TurningFaithful(w: Way)
    ensures Faithful(TurningOf(w))
  {
    forall raw, value, quote | Canon(value, w) == value ensures Respelled(raw, value, Canon(value, w), quote) == raw {
      NothingRespelled(raw, value, quote);
    }
  }

  lemma {:induction false} NothingRespelled(raw: string, value: string, quote: Quote)
    ensures Respelled(raw, value, value, quote) == raw
  {
    AllShared(value, 0);
    assert Head(value, value) == "" && raw[0..] == raw;
    assert Escaped("", quote) == "";
    EscapedAwkward("");
  }

  lemma {:induction false} AllShared(s: string, n: nat)
    requires n <= |s|
    ensures SharedFrom(s, s, n) == |s|
    decreases |s| - n
  {
    if n < |s| {
      AllShared(s, n + 1);
    }
  }

  /** Every attribute found stands in the page as it is described. */
  lemma {:induction false} FoundStands(src: string, from: nat, swaps: seq<Swap>, out: string, pos: nat)
    requires Sits(src, from, swaps, out, pos)
    ensures forall a :: a in Rescan(from, pos, swaps) ==> a.from <= a.to <= |out| && out[a.from..a.to] == a.raw
    decreases |swaps|
  {
    if swaps != [] {
      var s, at := swaps[0], Moved(swaps[0], from, pos);
      FoundStands(src, s.edit.end, swaps[1..], out, at + |s.edit.text|);
      InnerStands(out, at, s);
    }
  }

  lemma {:induction false} InnerStands(out: string, at: nat, s: Swap)
    requires at + |s.edit.text| <= |out| && out[at..at + |s.edit.text|] == s.edit.text
    ensures out[at + s.pre..at + |s.edit.text| - s.pre] == InnerOf(s)
  {
    Cut(out, at, at, at + |s.edit.text|, s.pre, s.edit.text);
  }

  /** Which second edits take a descriptor out, and which turn an attribute back. */
  function RemovalFlags(swaps: seq<Swap>): (flags: seq<bool>)
    ensures |flags| == |swaps| && forall i :: 0 <= i < |flags| ==> flags[i] == swaps[i].reading.JSON?
  {
    seq(|swaps|, i requires 0 <= i < |swaps| => swaps[i].reading.JSON?)
  }

  function ReturnFlags(swaps: seq<Swap>): (flags: seq<bool>)
    ensures |flags| == |swaps| && forall i :: 0 <= i < |flags| ==> flags[i] == (swaps[i].reading.URL? && swaps[i].again)
  {
    seq(|swaps|, i requires 0 <= i < |swaps| => swaps[i].reading.URL? && swaps[i].again)
  }

  lemma {:induction false} ChosenFront(e: Edit<char>, later: seq<Edit<char>>, flags: seq<bool>)
    requires |flags| == 1 + |later|
    ensures Chosen([e] + later, flags) == (if flags[0] then [e] else []) + Chosen(later, flags[1..])
  {
    assert ([e] + later)[1..] == later;
  }

  /** Two choices without an edit in common, taken together. */
  lemma {:induction false} ChosenApart(edits: seq<Edit<char>>, a: seq<bool>, b: seq<bool>, both: seq<bool>)
    requires |a| == |b| == |both| == |edits| && forall i :: 0 <= i < |both| ==> both[i] == (a[i] || b[i]) && !(a[i] && b[i])
    ensures multiset(Chosen(edits, a)) + multiset(Chosen(edits, b)) == multiset(Chosen(edits, both))
  {
    if edits != [] {
      ChosenApart(edits[1..], a[1..], b[1..], both[1..]);
    }
  }

  lemma {:induction false} RemovalsChosen(from: nat, swaps: seq<Swap>, pos: nat, t: Turning)
    requires forall i :: 0 <= i < |swaps| ==> Coherent(swaps[i], t)
    ensures Removals(Spans(from, pos, swaps)) == Chosen(Again(from, pos, swaps), RemovalFlags(swaps))
    decreases |swaps|
  {
    if swaps != [] {
      var s, rest, at := swaps[0], swaps[1..], Moved(swaps[0], from, pos);
      var past := at + |s.edit.text|;
      RemovalsChosen(s.edit.end, rest, past, t);
      ChosenFront(BackEdit(s, at), Again(s.edit.end, past, rest), RemovalFlags(swaps));
      assert RemovalFlags(swaps)[1..] == RemovalFlags(rest) && Coherent(s, t);
      if s.reading.JSON? {
        assert Spans(from, pos, swaps)[1..] == Spans(s.edit.end, past, rest);
      } else {
        assert Spans(from, pos, swaps) == Spans(s.edit.end, past, rest);
      }
    }
  }

  lemma {:induction false} ReturnsChosen(from: nat, swaps: seq<Swap>, pos: nat, t: Turning)
    requires forall i :: 0 <= i < |swaps| ==> Coherent(swaps[i], t)
    ensures Returns(Rescan(from, pos, swaps), t) == Chosen(Again(from, pos, swaps), ReturnFlags(swaps))
    decreases |swaps|
  {
    if swaps != [] {
      var s, rest, at := swaps[0], swaps[1..], Moved(swaps[0], from, pos);
      var past := at + |s.edit.text|;
      assert swaps == [s] + rest && Coherent(s, t);
      ReturnsChosen(s.edit.end, rest, past, t);
      ReturnFlagsFront(swaps);
      AgainFront(s, rest, from, pos);
      ChosenFront(BackEdit(s, at), Again(s.edit.end, past, rest), ReturnFlags(swaps));
      ReturnsFront(s, rest, from, pos, t);
    }
  }

  lemma {:induction false} ReturnFlagsFront(swaps: seq<Swap>)
    requires swaps != []
    ensures ReturnFlags(swaps)[1..] == ReturnFlags(swaps[1..])
  {
  }

  lemma {:induction false} ReturnsFront(s: Swap, rest: seq<Swap>, from: nat, pos: nat, t: Turning)
    requires Coherent(s, t)
    ensures var at := Moved(s, from, pos);
      Returns(Rescan(from, pos, [s] + rest), t)
        == (if s.reading.URL? && s.again then [BackEdit(s, at)] else []) + Returns(Rescan(s.edit.end, at + |s.edit.text|, rest), t)
  {
    var at := Moved(s, from, pos);
    RescanFront(s, rest, from, pos);
    if s.reading.URL? {
      ReturnedFront(Attribute(at + s.pre, at + |s.edit.text| - s.pre, InnerOf(s), s.reading.value, s.reading.quote), Rescan(s.edit.end, at + |s.edit.text|, rest), t);
    } else {
      var later := Rescan(s.edit.end, at + |s.edit.text|, rest);
      assert [] + later == later;
    }
  }

  lemma {:induction false} RescanFront(s: Swap, rest: seq<Swap>, from: nat, pos: nat)
    ensures var at := Moved(s, from, pos);
      Rescan(from, pos, [s] + rest) ==
        (if s.reading.URL? then [Attribute(at + s.pre, at + |s.edit.text| - s.pre, InnerOf(s), s.reading.value, s.reading.quote)] else [])
        + Rescan(s.edit.end, at + |s.edit.text|, rest)
  {
    assert ([s] + rest)[1..] == rest;
  }

  lemma {:induction false} ReturnedFront(a: Attribute, later: seq<Attribute>, t: Turning)
    ensures Returns([a] + later, t) == Returned(a, t) + Returns(later, t)
  {
    assert ([a] + later)[1..] == later;
  }

  lemma {:induction false} AgainFront(s: Swap, rest: seq<Swap>, from: nat, pos: nat)
    ensures var at := Moved(s, from, pos); Again(from, pos, [s] + rest) == [BackEdit(s, at)] + Again(s.edit.end, at + |s.edit.text|, rest)
  {
    assert ([s] + rest)[1..] == rest;
  }

  /** The splices of the way back are the second edits that are made. */
  lemma {:induction false} SameSplices(swaps: seq<Swap>, t: Turning)
    requires forall i :: 0 <= i < |swaps| ==> Coherent(swaps[i], t)
    ensures multiset(Removals(Spans(0, 0, swaps))) + multiset(Returns(Rescan(0, 0, swaps), t))
      == multiset(Chosen(Again(0, 0, swaps), AgainFlags(swaps)))
  {
    RemovalsChosen(0, swaps, 0, t);
    ReturnsChosen(0, swaps, 0, t);
    forall i | 0 <= i < |swaps| ensures AgainFlags(swaps)[i] == (RemovalFlags(swaps)[i] || ReturnFlags(swaps)[i]) {
      assert Coherent(swaps[i], t);
    }
    ChosenApart(Again(0, 0, swaps), RemovalFlags(swaps), ReturnFlags(swaps), AgainFlags(swaps));
  }

  /** A second edit that is not made would put back what stands there. */
  lemma {:induction false} SkippedIdle(src: string, from: nat, swaps: seq<Swap>, out: string, pos: nat, t: Turning, i: nat)
    requires Sits(src, from, swaps, out, pos)
    requires i < |swaps| && !swaps[i].again && Coherent(swaps[i], t) && Faithful(t)
    ensures IdleIn(out, Again(from, pos, swaps)[i])
    decreases |swaps|
  {
    var s, at := swaps[0], Moved(swaps[0], from, pos);
    if i == 0 {
      HeadIdle(out, at, s, t);
    } else {
      SkippedIdle(src, s.edit.end, swaps[1..], out, at + |s.edit.text|, t, i - 1);
    }
  }

  lemma {:induction false} HeadIdle(out: string, at: nat, s: Swap, t: Turning)
    requires at + |s.edit.text| <= |out| && out[at..at + |s.edit.text|] == s.edit.text
    requires !s.again && Coherent(s, t) && Faithful(t)
    ensures IdleIn(out, BackEdit(s, at))
  {
    InnerStands(out, at, s);
    assert s.back == InnerOf(s);
  }

  /** The edit puts back what stands there. */
  ghost predicate IdleIn(out: string, e: Edit<char>) {
    e.start <= e.end <= |out| && e.text == out[e.start..e.end]
  }

  /** The way back over a page makes every second edit. */
  method TurnPageBack(ghost src: string, swaps: seq<Swap>, served: string, h: Home, ghost t: Turning) returns (out: string)
    requires t == TurningOf(WayOf(FirstJSON(Spans(0, 0, swaps)), h))
    requires Sits(src, 0, swaps, served, 0) && forall i :: 0 <= i < |swaps| ==> Coherent(swaps[i], t)
    ensures Ascending(Whole(swaps), 0, |src|) && out == Patched(src, 0, Whole(swaps))
  {
    ghost var edits := ChosenEdits(src, swaps, served, t);
    TurningFaithful(WayOf(FirstJSON(Spans(0, 0, swaps)), h));
    SkippedChange(src, swaps, served, t);
    TwiceIsOnce(src, 0, swaps, served, 0);
    out := CanonicalizePage(served, Spans(0, 0, swaps), Rescan(0, 0, swaps), h, edits);
  }

  lemma {:induction false} ChosenEdits(src: string, swaps: seq<Swap>, served: string, t: Turning) returns (edits: seq<Edit<char>>)
    requires Sits(src, 0, swaps, served, 0) && forall i :: 0 <= i < |swaps| ==> Coherent(swaps[i], t)
    ensures edits == Chosen(Again(0, 0, swaps), AgainFlags(swaps)) && InText(edits, |served|)
    ensures multiset(Removals(Spans(0, 0, swaps))) + multiset(Returns(Rescan(0, 0, swaps), t)) == multiset(edits)
  {
    var all := Again(0, 0, swaps);
    edits := Chosen(all, AgainFlags(swaps));
    AgainGapped(src, 0, swaps, served, 0);
    GappedSooner(all, if swaps == [] then 0 else swaps[0].edit.start, 0);
    ChosenAmong(all, AgainFlags(swaps), 0);
    GappedInText(edits, 0, |served|);
    SameSplices(swaps, t);
  }

  lemma {:induction false} SkippedChange(src: string, swaps: seq<Swap>, served: string, t: Turning)
    requires Sits(src, 0, swaps, served, 0) && Faithful(t) && forall i :: 0 <= i < |swaps| ==> Coherent(swaps[i], t)
    ensures var all, edits := Again(0, 0, swaps), Chosen(Again(0, 0, swaps), AgainFlags(swaps));
      Ascending(all, 0, |served|) && Ascending(edits, 0, |served|) && Patched(served, 0, edits) == Patched(served, 0, all)
  {
    var all := Again(0, 0, swaps);
    TwiceIsOnce(src, 0, swaps, served, 0);
    forall i | 0 <= i < |all| && !AgainFlags(swaps)[i] ensures IdleIn(served, all[i]) {
      SkippedIdle(src, 0, swaps, served, 0, t, i);
    }
    DropIdle(served, 0, all, AgainFlags(swaps));
  }

  // ----- when the page is what it was -----

  ghost predicate Restores(src: string, s: Swap) {
    s.edit.start <= s.edit.end <= |src| && Final(s) == src[s.edit.start..s.edit.end]
  }

  /** What stands there in the end is told from what follows it. */
  ghost predicate Tells(src: string, s: Swap) {
    && s.edit.start <= s.edit.end < |src|
    && forall more: string {:trigger Final(s) + more} ::
         more != "" && more[0] == src[s.edit.end] && Final(s) + more == src[s.edit.start..] ==> Restores(src, s)
  }

  ghost predicate AllRestore(src: string, swaps: seq<Swap>) {
    swaps != [] ==> Restores(src, swaps[0]) && AllRestore(src, swaps[1..])
  }

  /** A stretch that is not restored shows in what is left of the page. */
  ghost predicate Shows(src: string, s: Swap, rest: seq<Swap>) {
    match s.reading
    case URL(_, _) => Tells(src, s)
    case JSON(_) => Restores(src, s) || NeverBack(src, s, rest)
  }

  /** What is left from here on is not what stood here. */
  ghost predicate NeverBack(src: string, s: Swap, rest: seq<Swap>) {
    && s.edit.start <= s.edit.end <= |src| && !Restores(src, s)
    && (Ascending(Whole(rest), s.edit.end, |src|) ==> Final(s) + Patched(src, s.edit.end, Whole(rest)) != src[s.edit.start..])
  }

  ghost predicate AllShow(src: string, swaps: seq<Swap>) {
    swaps != [] ==> Shows(src, swaps[0], swaps[1..]) && AllShow(src, swaps[1..])
  }

  /** The page is what it was exactly when every stretch is. */
  lemma {:induction false} WholeBack(src: string, from: nat, swaps: seq<Swap>, out: string, pos: nat)
    requires Sits(src, from, swaps, out, pos) && AllShow(src, swaps)
    ensures Ascending(Whole(swaps), from, |src|)
    ensures Patched(src, from, Whole(swaps)) == src[from..] <==> AllRestore(src, swaps)
    decreases |swaps|
  {
    if swaps != [] {
      var s, rest := swaps[0], swaps[1..];
      WholeBack(src, s.edit.end, rest, out, Moved(s, from, pos) + |s.edit.text|);
      OneWhole(src, from, s, Whole(rest));
      var more := Patched(src, s.edit.end, Whole(rest));
      if s.reading.URL? {
        NextKept(src, s.edit.end, rest, out, Moved(s, from, pos) + |s.edit.text|);
        OneStretch(src, from, s, more);
      } else {
        OtherStretch(src, from, s, more);
      }
    }
  }

  lemma {:induction false} OtherStretch(src: string, from: nat, s: Swap, more: string)
    requires from <= s.edit.start <= s.edit.end <= |src| && (Restores(src, s) || Final(s) + more != src[s.edit.start..])
    ensures src[from..s.edit.start] + Final(s) + more == src[from..] <==> Restores(src, s) && more == src[s.edit.end..]
  {
    var kept, whole := src[from..s.edit.start], Final(s) + more;
    assert src[from..] == kept + src[s.edit.start..] && kept + Final(s) + more == kept + whole;
    assert src[s.edit.start..] == src[s.edit.start..s.edit.end] + src[s.edit.end..];
    if kept + whole == src[from..] {
      Cancel(kept, whole, src[s.edit.start..]);
      Cancel(Final(s), more, src[s.edit.end..]);
    }
  }

  /** The character behind an attribute is left as it is. */
  lemma {:induction false} NextKept(src: string, end: nat, rest: seq<Swap>, out: string, pos: nat)
    requires Sits(src, end, rest, out, pos) && end < |src| && (rest != [] ==> end < rest[0].edit.start)
    requires Ascending(Whole(rest), end, |src|)
    ensures var more := Patched(src, end, Whole(rest)); more != "" && more[0] == src[end]
  {
  }

  lemma {:induction false} OneStretch(src: string, from: nat, s: Swap, more: string)
    requires from <= s.edit.start && Tells(src, s) && more != "" && more[0] == src[s.edit.end]
    ensures src[from..s.edit.start] + Final(s) + more == src[from..] <==> Restores(src, s) && more == src[s.edit.end..]
  {
    var kept, whole := src[from..s.edit.start], Final(s) + more;
    assert src[from..] == kept + src[s.edit.start..];
    assert kept + Final(s) + more == kept + whole;
    if kept + whole == src[from..] {
      Cancel(kept, whole, src[s.edit.start..]);
      assert src[s.edit.start..] == Final(s) + src[s.edit.end..];
      Cancel(Final(s), more, src[s.edit.end..]);
    }
    assert src[s.edit.start..] == src[s.edit.start..s.edit.end] + src[s.edit.end..];
  }

  /** Text that can be written in an attribute: nothing in it ends it, or it comes with quotes of its own. */
  predicate Stands(text: string, quote: Quote) {
    || Unended(text, quote)
    || (quote == Bare && |text| >= 2 && text == Quoted(text[1..|text| - 1]) && Unended(text[1..|text| - 1], Double))
  }

  lemma {:induction false} AttributeTells(src: string, s: Swap, quote: Quote)
    requires s.edit.start <= s.edit.end < |src| && Ends(src[s.edit.end], quote) && Fits(src[s.edit.start..s.edit.end], quote)
    requires Stands(Final(s), quote)
    ensures Tells(src, s)
  {
    var raw, final, rest := src[s.edit.start..s.edit.end], Final(s), src[s.edit.start..];
    assert rest == raw + src[s.edit.end..];
    if Unended(final, quote) {
      UpToEnd(raw, src[s.edit.end..], quote);
      forall more: string | more != "" && more[0] == src[s.edit.end] && final + more == rest ensures Restores(src, s) {
        UpToEnd(final, more, quote);
        assert rest[..|final|] == final;
      }
    } else {
      assert rest[0] == if raw == "" then src[s.edit.end] else raw[0];
      OtherStart(final, rest);
    }
  }

  /** Where the first character stands that ends an attribute. */
  function EndAt(s: string, quote: Quote): nat {
    if s == "" || Ends(s[0], quote) then 0 else 1 + EndAt(s[1..], quote)
  }

  lemma {:induction false} UpToEnd(text: string, more: string, quote: Quote)
    requires Unended(text, quote) && more != "" && Ends(more[0], quote)
    ensures EndAt(text + more, quote) == |text|
  {
    if text == "" {
      assert text + more == more;
    } else {
      assert (text + more)[1..] == text[1..] + more;
      UpToEnd(text[1..], more, quote);
    }
  }

  lemma {:induction false} OtherStart(final: string, rest: string)
    requires final != "" && rest != "" && final[0] != rest[0]
    ensures forall more: string {:trigger final + more} :: final + more != rest
  {
    forall more: string ensures final + more != rest {
      assert (final + more)[0] == final[0];
    }
  }

  lemma {:induction false} EscapedUnended(s: string, quote: Quote)
    requires quote != Bare
    ensures Unended(Escaped(s, quote), quote)
  {
    if s != [] {
      EscapedUnended(s[1..], quote);
      assert "&amp;" == ['&', 'a', 'm', 'p', ';'] && "&#39;" == ['&', '#', '3', '9', ';'] && "&quot;" == ['&', 'q', 'u', 'o', 't', ';'];
      assert Unended(Reference(s[0], quote), quote);
    }
  }

  lemma {:induction false} TextUnended(s: string, quote: Quote)
    requires quote == Bare ==> !AnyAwkward(s)
    ensures Unended(AttributeText(s, quote), quote)
  {
    if quote == Bare {
      EscapedAwkward(s);
      BareText(s);
    } else {
      EscapedUnended(s, quote);
    }
  }

  lemma {:induction false} RespelledUnended(raw: string, value: string, replacement: string, quote: Quote)
    requires Unended(raw, quote) && !AddsQuotes(raw, value, replacement, quote)
    ensures Unended(Respelled(raw, value, replacement, quote), quote)
  {
    if KeepsSpelling(raw, value, replacement, quote) {
      TextUnended(Head(replacement, value), quote);
    } else {
      EscapedAwkward(replacement);
      TextUnended(replacement, quote);
    }
  }

  /** What a rewrite leaves can stand in the attribute. */
  lemma {:induction false} RespelledStands(raw: string, value: string, replacement: string, quote: Quote)
    requires Unended(raw, quote)
    ensures Stands(Respelled(raw, value, replacement, quote), quote)
  {
    if AddsQuotes(raw, value, replacement, quote) {
      EscapedUnended(replacement, Double);
      QuotedStands(Escaped(replacement, Double));
    } else {
      RespelledUnended(raw, value, replacement, quote);
    }
  }

  lemma {:induction false} QuotedStands(inner: string)
    requires Unended(inner, Double)
    ensures Stands(Quoted(inner), Bare)
  {
    assert Quoted(inner)[1..|Quoted(inner)| - 1] == inner;
  }

  lemma {:induction false} BackStands(raw: string, value: string, local: string, again: string, quote: Quote)
    requires Unended(raw, quote)
    ensures Stands(BackAgain(raw, value, local, again, quote), quote)
  {
    var now := Inner(raw, value, local, quote);
    if AddsQuotes(raw, value, local, quote) {
      EscapedUnended(local, Double);
      RespelledUnended(now, local, again, Double);
      QuotedStands(Respelled(now, local, again, Double));
    } else {
      RespelledUnended(raw, value, local, quote);
      RespelledStands(now, local, again, quote);
    }
  }

  // ----- the whole way -----

  /** What one attribute goes through. */
  function PieceOf(c: Candidate, serve: Serve, t: Turning): Swap {
    var a, local := c.here, serve(c.here.value);
    if local.None? then
      Stretch(Edit(a.from, a.to, a.raw), false, 0, t.write(a.raw, a.value, a.quote), t.canon(a.value) != a.value, URL(a.value, a.quote))
    else
      var quote := QuoteThen(a.raw, a.value, local.value, a.quote);
      Stretch(Edit(a.from, a.to, Respelled(a.raw, a.value, local.value, a.quote)), true, if AddsQuotes(a.raw, a.value, local.value, a.quote) then 1 else 0,
              t.write(Inner(a.raw, a.value, local.value, a.quote), local.value, quote), t.canon(local.value) != local.value, URL(local.value, quote))
  }

  /** A descriptor put in: its text, and the JSON in it. */
  datatype Note = Note(text: string, json: string)

  /** The descriptor goes in front of the first tag whose URL is made local, and is taken out again. */
  function NoteAt(at: nat, note: Note): Swap {
    Stretch(Edit(at, at, note.text), true, 0, "", true, JSON(note.json))
  }

  /** A descriptor of the page's own stays, and is taken out with the other. */
  function MapOf(m: Mark): Swap
    requires m.Map?
  {
    Stretch(Edit(m.from, m.to, m.text), false, 0, "", true, JSON(m.json))
  }

  function Plan(marks: seq<Mark>, serve: Serve, t: Turning, note: Option<Note>): seq<Swap> {
    if marks == [] then []
    else
      match marks[0]
      case Map(_, _, _, _) => [MapOf(marks[0])] + Plan(marks[1..], serve, t, note)
      case Tag(c) =>
        if serve(c.here.value).Some? && note.Some? then [NoteAt(c.tag, note.value), PieceOf(c, serve, t)] + Plan(marks[1..], serve, t, None)
        else [PieceOf(c, serve, t)] + Plan(marks[1..], serve, t, note)
  }

  /** The JSON of the first descriptor in the order of the served page. */
  function FirstNote(marks: seq<Mark>, serve: Serve, note: Option<Note>): Option<string> {
    if marks == [] then None
    else
      match marks[0]
      case Map(_, _, _, json) => Some(json)
      case Tag(c) => if serve(c.here.value).Some? && note.Some? then Some(note.value.json) else FirstNote(marks[1..], serve, note)
  }

  lemma {:induction false} FirstIsFirst(marks: seq<Mark>, serve: Serve, t: Turning, note: Option<Note>, from: nat, pos: nat)
    ensures FirstJSON(Spans(from, pos, Plan(marks, serve, t, note))) == FirstNote(marks, serve, note)
  {
    if marks != [] && marks[0].Tag? && !(serve(marks[0].c.here.value).Some? && note.Some?) {
      var s, rest := PieceOf(marks[0].c, serve, t), Plan(marks[1..], serve, t, note);
      var at := Moved(s, from, pos);
      assert Plan(marks, serve, t, note) == [s] + rest;
      FirstIsFirst(marks[1..], serve, t, note, s.edit.end, at + |s.edit.text|);
      SpansBehind(s, rest, from, pos);
    }
  }

  lemma {:induction false} SpansBehind(s: Swap, rest: seq<Swap>, from: nat, pos: nat)
    requires s.reading.URL?
    ensures Spans(from, pos, [s] + rest) == Spans(s.edit.end, Moved(s, from, pos) + |s.edit.text|, rest)
  {
    assert ([s] + rest)[1..] == rest;
  }

  /** The splices of a projection in the order of the text. */
  function Placed(cs: seq<Candidate>, serve: Serve, note: Option<Note>): seq<Edit<char>> {
    if cs == [] then []
    else if serve(cs[0].here.value).Some? && note.Some? then [Edit(cs[0].tag, cs[0].tag, note.value.text)] + Moves(cs, serve)
    else if serve(cs[0].here.value).Some? then Moves(cs, serve)
    else Placed(cs[1..], serve, note)
  }

  function FirstTag(cs: seq<Candidate>, serve: Serve): Option<nat> {
    if cs == [] then None else if serve(cs[0].here.value).Some? then Some(cs[0].tag) else FirstTag(cs[1..], serve)
  }

  lemma {:induction false} PlacedIs(cs: seq<Candidate>, serve: Serve, note: Option<Note>)
    ensures multiset(Placed(cs, serve, note)) == multiset(Moves(cs, serve)) +
      if note.Some? && FirstTag(cs, serve).Some? then multiset{Edit(FirstTag(cs, serve).value, FirstTag(cs, serve).value, note.value.text)} else multiset{}
  {
    if cs != [] && serve(cs[0].here.value).None? {
      PlacedIs(cs[1..], serve, note);
      assert Moves(cs, serve) == Moves(cs[1..], serve);
    }
  }

  lemma {:induction false} TaggedWhenMapped(cs: seq<Candidate>, serve: Serve)
    ensures FirstTag(cs, serve).Some? <==> Mappings(cs, serve) != []
  {
    if cs != [] && serve(cs[0].here.value).None? {
      TaggedWhenMapped(cs[1..], serve);
    }
  }

  function MovedFlags(swaps: seq<Swap>): (flags: seq<bool>)
    ensures |flags| == |swaps| && forall i :: 0 <= i < |flags| ==> flags[i] == swaps[i].moved
  {
    seq(|swaps|, i requires 0 <= i < |swaps| => swaps[i].moved)
  }

  lemma {:induction false} MovedFront(s: Swap, rest: seq<Swap>)
    ensures Chosen(There([s] + rest), MovedFlags([s] + rest)) == (if s.moved then [s.edit] else []) + Chosen(There(rest), MovedFlags(rest))
  {
    var swaps := [s] + rest;
    assert swaps[1..] == rest && There(swaps)[1..] == There(rest) && MovedFlags(swaps)[1..] == MovedFlags(rest);
  }

  /** Without a descriptor left to put in, the splices are those of the attributes. */
  lemma {:induction false} PlanMoves(marks: seq<Mark>, serve: Serve, t: Turning)
    ensures Chosen(There(Plan(marks, serve, t, None)), MovedFlags(Plan(marks, serve, t, None))) == Moves(Candidates(marks), serve)
  {
    if marks != [] {
      PlanMoves(marks[1..], serve, t);
      CandidatesFront(marks);
      MovedFront(Plan(marks, serve, t, None)[0], Plan(marks[1..], serve, t, None));
    }
  }

  lemma {:induction false} CandidatesFront(marks: seq<Mark>)
    requires marks != []
    ensures if marks[0].Tag? then Candidates(marks) == [marks[0].c] + Candidates(marks[1..]) else Candidates(marks) == Candidates(marks[1..])
  {
  }

  lemma {:induction false} PlanPlaced(marks: seq<Mark>, serve: Serve, t: Turning, note: Option<Note>)
    ensures Chosen(There(Plan(marks, serve, t, note)), MovedFlags(Plan(marks, serve, t, note))) == Placed(Candidates(marks), serve, note)
    decreases |marks|, 1
  {
    if marks != [] {
      CandidatesFront(marks);
      if marks[0].Map? {
        PlanPlaced(marks[1..], serve, t, note);
        MovedFront(MapOf(marks[0]), Plan(marks[1..], serve, t, note));
      } else {
        TagPlaced(marks, serve, t, note);
      }
    }
  }

  lemma {:induction false} TagPlaced(marks: seq<Mark>, serve: Serve, t: Turning, note: Option<Note>)
    requires marks != [] && marks[0].Tag?
    ensures Chosen(There(Plan(marks, serve, t, note)), MovedFlags(Plan(marks, serve, t, note))) == Placed(Candidates(marks), serve, note)
    decreases |marks|, 0
  {
    var c, rest := marks[0].c, Plan(marks[1..], serve, t, None);
    var piece := PieceOf(c, serve, t);
    CandidatesFront(marks);
    if serve(c.here.value).Some? && note.Some? {
      PlanMoves(marks, serve, t);
      assert Plan(marks, serve, t, None) == [piece] + rest;
      MovedFront(NoteAt(c.tag, note.value), [piece] + rest);
      assert [NoteAt(c.tag, note.value), piece] + rest == [NoteAt(c.tag, note.value)] + ([piece] + rest);
    } else if serve(c.here.value).Some? {
      PlanMoves(marks, serve, t);
    } else {
      PlanPlaced(marks[1..], serve, t, note);
      MovedFront(piece, Plan(marks[1..], serve, t, note));
    }
  }

  /** What is known of every stretch of a plan. */
  ghost predicate Sound(src: string, s: Swap, t: Turning) {
    && s.edit.start <= s.edit.end <= |src| && Coherent(s, t) && (!s.moved ==> IdleIn(src, s.edit))
  }

  lemma {:induction false} PieceSound(src: string, c: Candidate, serve: Serve, t: Turning)
    requires c.here.from <= c.here.to < |src| && src[c.here.from..c.here.to] == c.here.raw
    ensures Sound(src, PieceOf(c, serve, t), t)
  {
    var a, s := c.here, PieceOf(c, serve, t);
    if serve(c.here.value).Some? && AddsQuotes(a.raw, a.value, serve(c.here.value).value, a.quote) {
      assert InnerOf(s) == Escaped(serve(c.here.value).value, Double);
    } else {
      assert InnerOf(s) == s.edit.text;
    }
  }

  /** The stretches of a plan: sound, apart, and in order from `from` on. */
  ghost predicate Laid(src: string, swaps: seq<Swap>, t: Turning, from: nat) {
    && Gapped(There(swaps), from) && AllRoom(src, swaps) && (swaps != [] ==> from <= swaps[0].edit.start)
    && forall s :: s in swaps ==> Sound(src, s, t)
  }

  /** `next` is where what comes behind may begin. */
  lemma {:induction false} LaidFront(src: string, s: Swap, rest: seq<Swap>, t: Turning, from: nat, next: nat)
    requires from <= s.edit.start && Sound(src, s, t) && Laid(src, rest, t, next) && s.edit.end <= next
    requires s.reading.URL? || s.edit.start == s.edit.end || s.edit.text == "" ==> s.edit.end < next
    requires s.reading.URL? ==> s.edit.end < |src|
    ensures Laid(src, [s] + rest, t, from)
  {
    var swaps := [s] + rest;
    assert swaps[1..] == rest && There(swaps)[1..] == There(rest);
    GappedSooner(There(rest), next, Past(s.edit));
  }

  lemma {:induction false} PlanSound(src: string, marks: seq<Mark>, serve: Serve, t: Turning, note: Option<Note>, from: nat)
    requires Scanned(src, marks, from)
    ensures Laid(src, Plan(marks, serve, t, note), t, from)
  {
    if marks != [] {
      match marks[0]
      case Map(start, end, text, _) =>
        PlanSound(src, marks[1..], serve, t, note, end);
        LaidFront(src, MapOf(marks[0]), Plan(marks[1..], serve, t, note), t, from, end);
      case Tag(c) =>
        PieceSound(src, c, serve, t);
        if serve(c.here.value).Some? && note.Some? {
          PlanSound(src, marks[1..], serve, t, None, c.here.to + 1);
          NoteSound(src, c, serve, t, note.value, Plan(marks[1..], serve, t, None), from);
        } else {
          PlanSound(src, marks[1..], serve, t, note, c.here.to + 1);
          LaidFront(src, PieceOf(c, serve, t), Plan(marks[1..], serve, t, note), t, from, c.here.to + 1);
        }
    }
  }

  lemma {:induction false} NoteSound(src: string, c: Candidate, serve: Serve, t: Turning, note: Note, rest: seq<Swap>, from: nat)
    requires from <= c.tag < c.here.from <= c.here.to < |src| && Sound(src, PieceOf(c, serve, t), t) && Laid(src, rest, t, c.here.to + 1)
    ensures Laid(src, [NoteAt(c.tag, note), PieceOf(c, serve, t)] + rest, t, from)
  {
    var d, piece := NoteAt(c.tag, note), PieceOf(c, serve, t);
    LaidFront(src, piece, rest, t, c.tag + 1, c.here.to + 1);
    LaidFront(src, d, [piece] + rest, t, from, c.tag + 1);
    assert [d, piece] + rest == [d] + ([piece] + rest);
  }

  /** A URL is turned into what `canon` says, in the file's spelling where that can be kept. */
  ghost predicate Writes(t: Turning) {
    forall raw, value, quote {:trigger t.write(raw, value, quote)} :: t.write(raw, value, quote) == Respelled(raw, value, t.canon(value), quote)
  }

  lemma {:induction false} TurningWrites(w: Way)
    ensures Writes(TurningOf(w))
  {
  }

  /**
   When an attribute is what it was: its URL comes back, and its spelling does; one that was left alone
   is left alone again.
   */
  ghost predicate Restored(c: Candidate, serve: Serve, t: Turning) {
    match serve(c.here.value)
    case None => t.canon(c.here.value) == c.here.value
    case Some(local) => t.canon(local) == c.here.value && ComesBack(c.here.raw, c.here.value, local, c.here.quote)
  }

  lemma {:induction false} PieceFinal(c: Candidate, serve: Serve, t: Turning)
    requires Writes(t)
    ensures var a := c.here;
      Final(PieceOf(c, serve, t)) == if serve(a.value).None? then Respelled(a.raw, a.value, t.canon(a.value), a.quote)
        else BackAgain(a.raw, a.value, serve(a.value).value, t.canon(serve(a.value).value), a.quote)
  {
    var a, s := c.here, PieceOf(c, serve, t);
    if serve(a.value).Some? && AddsQuotes(a.raw, a.value, serve(a.value).value, a.quote) {
      var text := s.edit.text;
      assert text[..1] == "\"" && text[|text| - 1..] == "\"";
    } else {
      assert s.edit.text[..0] == "" && s.edit.text[|s.edit.text|..] == "";
    }
  }

  /** A rewrite that does not read as `value` is not the text that does. */
  lemma {:induction false} OtherReading(read: string -> string, raw: string, now: string, value: string, mid: string, again: string, quote: Quote)
    requires Decodes(read) && read(raw) == value && read(now) == mid && again != value && '\r' !in again && Fits(raw, quote)
    ensures Respelled(now, mid, again, quote) != raw
  {
    RespelledReads(read, now, mid, again, quote);
    if AddsQuotes(now, mid, again, quote) {
      assert Respelled(now, mid, again, quote)[0] == '"';
    }
  }

  /** No URL that is written holds a carriage return. */
  ghost predicate Clear(serve: Serve, t: Turning) {
    && (forall v {:trigger serve(v)} :: serve(v).Some? ==> '\r' !in serve(v).value)
    && forall v {:trigger t.canon(v)} :: t.canon(v) == v || '\r' !in t.canon(v)
  }

  lemma {:induction false} PieceRestores(c: Candidate, serve: Serve, t: Turning, read: string -> string)
    requires Writes(t) && Clear(serve, t) && Decodes(read) && read(c.here.raw) == c.here.value && Fits(c.here.raw, c.here.quote)
    ensures Final(PieceOf(c, serve, t)) == c.here.raw <==> Restored(c, serve, t)
  {
    var a := c.here;
    PieceFinal(c, serve, t);
    match serve(a.value)
    case None =>
      NothingRespelled(a.raw, a.value, a.quote);
      if t.canon(a.value) != a.value {
        OtherReading(read, a.raw, a.raw, a.value, a.value, t.canon(a.value), a.quote);
      }
    case Some(local) =>
      RoundTripExactly(a.raw, a.value, local, a.quote);
      if t.canon(local) != a.value {
        OtherBack(read, a.raw, a.value, local, t.canon(local), a.quote);
      }
  }

  lemma {:induction false} OtherBack(read: string -> string, raw: string, value: string, local: string, again: string, quote: Quote)
    requires Decodes(read) && read(raw) == value && again != value && '\r' !in local && '\r' !in again && Fits(raw, quote)
    ensures BackAgain(raw, value, local, again, quote) != raw
  {
    if AddsQuotes(raw, value, local, quote) {
      assert BackAgain(raw, value, local, again, quote)[0] == '"';
    } else {
      RespelledReads(read, raw, value, local, quote);
      OtherReading(read, raw, Respelled(raw, value, local, quote), value, local, again, quote);
    }
  }

  lemma {:induction false} PieceTells(src: string, c: Candidate, serve: Serve, t: Turning)
    requires Writes(t) && c.here.from <= c.here.to < |src| && Stand(src, c.here)
    ensures Tells(src, PieceOf(c, serve, t)) && Stands(Final(PieceOf(c, serve, t)), c.here.quote)
  {
    var a := c.here;
    PieceFinal(c, serve, t);
    match serve(a.value) {
      case None => RespelledStands(a.raw, a.value, t.canon(a.value), a.quote);
      case Some(local) => BackStands(a.raw, a.value, local, t.canon(local), a.quote);
    }
    AttributeTells(src, PieceOf(c, serve, t), a.quote);
  }

  lemma {:induction false} NoteBack(src: string, at: nat, note: Note)
    requires at <= |src|
    ensures Final(NoteAt(at, note)) == "" && Restores(src, NoteAt(at, note))
  {
    var s := NoteAt(at, note);
    assert note.text[..0] == "" && note.text[|note.text|..] == "" && s.back == "" && src[at..at] == "";
  }

  /** A descriptor of the page's own is gone. */
  lemma {:induction false} MapGone(src: string, m: Mark)
    requires m.Map? && m.from < m.to <= |src| && src[m.from..m.to] == m.text
    ensures Final(MapOf(m)) == "" && !Restores(src, MapOf(m))
  {
    assert m.text[..0] == "" && m.text[|m.text|..] == "";
  }

  // ----- what a descriptor of the page's own leaves behind -----

  /** A change of the page that makes no tag another: a descriptor taken out, or another URL in an attribute. */
  ghost predicate Change(e: Edit<char>, marks: seq<Mark>) {
    || (e.start == e.end && e.text == "")
    || exists m :: m in marks && match m
         case Map(from, to, _, _) => e == Edit(from, to, "")
         case Tag(c) => e.start == c.here.from && e.end == c.here.to && Stands(e.text, c.here.quote)
  }

  ghost predicate Changes(edits: seq<Edit<char>>, marks: seq<Mark>) {
    forall e :: e in edits ==> Change(e, marks)
  }

  /** Another descriptor follows, at once or behind a lone angle bracket. */
  predicate Joined(src: string, marks: seq<Mark>) {
    && |marks| > 1 && marks[0].Map? && marks[1].Map?
    && (marks[1].from == marks[0].to || Bracketed(src, marks))
  }

  predicate Bracketed(src: string, marks: seq<Mark>) {
    |marks| > 1 && marks[0].Map? && marks[1].Map? && marks[1].from == marks[0].to + 1 <= |src| && src[marks[0].to] == '<'
  }

  /** A lone angle bracket stands between two descriptors somewhere; without them it opens what follows. */
  predicate LoneBracket(src: string, marks: seq<Mark>) {
    marks != [] && (Bracketed(src, marks) || LoneBracket(src, marks[1..]))
  }

  /** No change makes what comes behind `from` begin with a descriptor. */
  ghost predicate NeverOpens(src: string, from: nat, marks: seq<Mark>, opens: string -> bool) {
    forall edits {:trigger Patched(src, from, edits)} :: Ascending(edits, from, |src|) && Changes(edits, marks) ==> !opens(Patched(src, from, edits))
  }

  /**
   `opens` tells text that begins with a descriptor's start tag, as a scan takes it up behind an end tag: so
   does every descriptor, and what follows one without being another does not, whatever URLs it holds.
   */
  ghost predicate Opening(src: string, marks: seq<Mark>, opens: string -> bool) {
    marks != [] ==>
      && (marks[0].Map? && marks[0].from < marks[0].to <= |src| ==>
            opens(src[marks[0].from..]) && (Joined(src, marks) || NeverOpens(src, marks[0].to, marks[1..], opens)))
      && Opening(src, marks[1..], opens)
  }

  lemma {:induction false} ChangesFront(edits: seq<Edit<char>>, e: Edit<char>, marks: seq<Mark>)
    requires marks != [] && Changes(edits, marks[1..]) && Change(e, marks)
    ensures Changes([e] + edits, marks)
  {
    forall f | f in edits ensures Change(f, marks) {
      assert Change(f, marks[1..]) && forall m :: m in marks[1..] ==> m in marks;
    }
  }

  lemma {:induction false} PlanChanges(src: string, marks: seq<Mark>, serve: Serve, t: Turning, note: Option<Note>, from: nat)
    requires Scanned(src, marks, from) && Writes(t)
    ensures Changes(Whole(Plan(marks, serve, t, note)), marks)
    decreases |marks|, 1
  {
    if marks != [] {
      assert marks[0] in marks;
      match marks[0]
      case Map(start, end, _, _) =>
        PlanChanges(src, marks[1..], serve, t, note, end);
        MapGone(src, marks[0]);
        WholeFront(MapOf(marks[0]), Plan(marks[1..], serve, t, note));
        ChangesFront(Whole(Plan(marks[1..], serve, t, note)), Edit(start, end, ""), marks);
      case Tag(c) => TagChanges(src, marks, serve, t, note, from);
    }
  }

  lemma {:induction false} WholeFront(s: Swap, rest: seq<Swap>)
    ensures Whole([s] + rest) == [Edit(s.edit.start, s.edit.end, Final(s))] + Whole(rest)
  {
    assert ([s] + rest)[1..] == rest;
  }

  lemma {:induction false} TagChanges(src: string, marks: seq<Mark>, serve: Serve, t: Turning, note: Option<Note>, from: nat)
    requires Scanned(src, marks, from) && Writes(t) && marks != [] && marks[0].Tag?
    ensures Changes(Whole(Plan(marks, serve, t, note)), marks)
    decreases |marks|, 0
  {
    var c, rest := marks[0].c, if serve(marks[0].c.here.value).Some? then None else note;
    var piece, later := PieceOf(c, serve, t), Plan(marks[1..], serve, t, rest);
    var e := Edit(c.here.from, c.here.to, Final(piece));
    PieceTells(src, c, serve, t);
    assert marks[0] in marks && Change(e, marks);
    PlanChanges(src, marks[1..], serve, t, rest, c.here.to + 1);
    WholeFront(piece, later);
    ChangesFront(Whole(later), e, marks);
    if serve(c.here.value).Some? && note.Some? {
      NoteBack(src, c.tag, note.value);
      assert [NoteAt(c.tag, note.value), piece] + later == [NoteAt(c.tag, note.value)] + ([piece] + later);
      WholeFront(NoteAt(c.tag, note.value), [piece] + later);
    } else if serve(c.here.value).Some? {
      assert note == None;
    }
  }

  /** Behind a descriptor that is taken out no descriptor begins. */
  lemma {:induction false} NothingOpens(src: string, marks: seq<Mark>, serve: Serve, t: Turning, note: Option<Note>, from: nat, opens: string -> bool)
    requires Scanned(src, marks, from) && Writes(t) && Opening(src, marks, opens) && !LoneBracket(src, marks) && marks != [] && marks[0].Map?
    requires Ascending(Whole(Plan(marks[1..], serve, t, note)), marks[0].to, |src|)
    ensures !opens(Patched(src, marks[0].to, Whole(Plan(marks[1..], serve, t, note))))
  {
    var m, rest := marks[0], marks[1..];
    var later := Whole(Plan(rest, serve, t, note));
    if Joined(src, marks) {
      var more := Whole(Plan(rest[1..], serve, t, note));
      MapGone(src, rest[0]);
      WholeFront(MapOf(rest[0]), Plan(rest[1..], serve, t, note));
      assert later == [Edit(rest[0].from, rest[0].to, "")] + more && later[1..] == more;
      NothingOpens(src, rest, serve, t, note, m.to, opens);
      assert src[m.to..rest[0].from] == "";
      assert Patched(src, m.to, later) == Patched(src, rest[0].to, more);
    } else {
      PlanChanges(src, rest, serve, t, note, m.to);
    }
  }

  lemma {:induction false} MapShows(src: string, marks: seq<Mark>, serve: Serve, t: Turning, note: Option<Note>, from: nat, opens: string -> bool)
    requires Scanned(src, marks, from) && Writes(t) && Opening(src, marks, opens) && !LoneBracket(src, marks) && marks != [] && marks[0].Map?
    ensures Shows(src, MapOf(marks[0]), Plan(marks[1..], serve, t, note)) && !Restores(src, MapOf(marks[0]))
  {
    var m, rest := marks[0], Plan(marks[1..], serve, t, note);
    MapGone(src, m);
    if Ascending(Whole(rest), m.to, |src|) {
      NothingOpens(src, marks, serve, t, note, from, opens);
      assert Final(MapOf(m)) + Patched(src, m.to, Whole(rest)) == Patched(src, m.to, Whole(rest));
    }
  }

  // ----- page and attributes -----

  ghost predicate AllRestored(cs: seq<Candidate>, serve: Serve, t: Turning) {
    cs != [] ==> Restored(cs[0], serve, t) && AllRestored(cs[1..], serve, t)
  }

  lemma {:induction false} EachRestored(cs: seq<Candidate>, serve: Serve, t: Turning)
    ensures AllRestored(cs, serve, t) <==> forall i :: 0 <= i < |cs| ==> Restored(cs[i], serve, t)
  {
    if cs != [] {
      EachRestored(cs[1..], serve, t);
      assert forall i :: 0 <= i < |cs[1..]| ==> cs[1..][i] == cs[i + 1];
    }
  }

  /** Every attribute's text reads as its value. */
  ghost predicate AllRead(cs: seq<Candidate>, read: string -> string) {
    cs != [] ==> read(cs[0].here.raw) == cs[0].here.value && AllRead(cs[1..], read)
  }

  lemma {:induction false} FrontRestores(src: string, s: Swap, rest: seq<Swap>)
    ensures AllRestore(src, [s] + rest) <==> Restores(src, s) && AllRestore(src, rest)
    ensures AllShow(src, [s] + rest) <==> Shows(src, s, rest) && AllShow(src, rest)
  {
    assert ([s] + rest)[1..] == rest;
  }

  lemma {:induction false} PlanRestores(src: string, marks: seq<Mark>, serve: Serve, t: Turning, note: Option<Note>, from: nat, read: string -> string, opens: string -> bool)
    requires Scanned(src, marks, from) && Writes(t) && Clear(serve, t) && Decodes(read) && AllRead(Candidates(marks), read)
    requires Opening(src, marks, opens) && !LoneBracket(src, marks)
    ensures var swaps := Plan(marks, serve, t, note);
      AllShow(src, swaps) && (AllRestore(src, swaps) <==> !HasMap(marks) && AllRestored(Candidates(marks), serve, t))
  {
    if marks != [] {
      CandidatesFront(marks);
      HasMapFront(marks);
      match marks[0]
      case Map(_, end, _, _) =>
        PlanRestores(src, marks[1..], serve, t, note, end, read, opens);
        MapShows(src, marks, serve, t, note, from, opens);
        FrontRestores(src, MapOf(marks[0]), Plan(marks[1..], serve, t, note));
      case Tag(c) =>
        HeadRestores(src, c, serve, t, read);
        if serve(c.here.value).Some? && note.Some? {
          PlanRestores(src, marks[1..], serve, t, None, c.here.to + 1, read, opens);
          FrontRestores(src, PieceOf(c, serve, t), Plan(marks[1..], serve, t, None));
          NoteRestores(src, c.tag, note.value, PieceOf(c, serve, t), Plan(marks[1..], serve, t, None));
        } else {
          PlanRestores(src, marks[1..], serve, t, note, c.here.to + 1, read, opens);
          FrontRestores(src, PieceOf(c, serve, t), Plan(marks[1..], serve, t, note));
        }
    }
  }

  lemma {:induction false} HasMapFront(marks: seq<Mark>)
    requires marks != []
    ensures HasMap(marks) <==> marks[0].Map? || HasMap(marks[1..])
  {
    if HasMap(marks) && !marks[0].Map? {
      var i :| 0 <= i < |marks| && marks[i].Map?;
      assert marks[1..][i - 1].Map?;
    }
    if HasMap(marks[1..]) {
      var i :| 0 <= i < |marks[1..]| && marks[1..][i].Map?;
      assert marks[i + 1].Map?;
    }
  }

  lemma {:induction false} HeadRestores(src: string, c: Candidate, serve: Serve, t: Turning, read: string -> string)
    requires Writes(t) && Clear(serve, t) && c.here.from <= c.here.to < |src| && Stand(src, c.here)
    requires Decodes(read) && read(c.here.raw) == c.here.value
    ensures Tells(src, PieceOf(c, serve, t)) && (Restores(src, PieceOf(c, serve, t)) <==> Restored(c, serve, t))
  {
    PieceTells(src, c, serve, t);
    PieceRestores(c, serve, t, read);
  }

  lemma {:induction false} NoteRestores(src: string, at: nat, note: Note, piece: Swap, rest: seq<Swap>)
    requires at < |src|
    ensures var swaps := [NoteAt(at, note), piece] + rest;
      && (AllRestore(src, swaps) <==> AllRestore(src, [piece] + rest))
      && (AllShow(src, swaps) <==> AllShow(src, [piece] + rest))
  {
    NoteBack(src, at, note);
    FrontRestores(src, NoteAt(at, note), [piece] + rest);
    assert [NoteAt(at, note), piece] + rest == [NoteAt(at, note)] + ([piece] + rest);
  }

  /** What is spliced in, in the order of the text, and that it comes to the same as the whole plan. */
  lemma {:induction false} PlanIsPlaced(src: string, marks: seq<Mark>, serve: Serve, t: Turning, note: Option<Note>)
    requires Scanned(src, marks, 0)
    ensures var all, placed := There(Plan(marks, serve, t, note)), Placed(Candidates(marks), serve, note);
      InText(placed, |src|) && Ascending(all, 0, |src|) && Patched(src, 0, placed) == Patched(src, 0, all)
  {
    var swaps := Plan(marks, serve, t, note);
    var all, flags := There(swaps), MovedFlags(swaps);
    PlanSound(src, marks, serve, t, note, 0);
    forall i | 0 <= i < |swaps| ensures all[i].end <= |src| && (!flags[i] ==> IdleIn(src, all[i])) {
      ThereAt(swaps, i);
      assert Sound(src, swaps[i], t);
    }
    GappedAscends(all, 0, |src|);
    DropIdle(src, 0, all, flags);
    ChosenAmong(all, flags, 0);
    GappedInText(Chosen(all, flags), 0, |src|);
    PlanPlaced(marks, serve, t, note);
  }

  /** The plan's stretches stand in the projected page. */
  lemma {:induction false} PlanSits(src: string, marks: seq<Mark>, serve: Serve, t: Turning, note: Option<Note>, served: string)
    requires Scanned(src, marks, 0) && Ascending(There(Plan(marks, serve, t, note)), 0, |src|)
    requires served == Patched(src, 0, There(Plan(marks, serve, t, note)))
    ensures Sits(src, 0, Plan(marks, serve, t, note), served, 0)
    ensures forall i :: 0 <= i < |Plan(marks, serve, t, note)| ==> Coherent(Plan(marks, serve, t, note)[i], t)
  {
    PlanSound(src, marks, serve, t, note, 0);
    var swaps := Plan(marks, serve, t, note);
    forall i | 0 <= i < |swaps| ensures Coherent(swaps[i], t) {
      assert Sound(src, swaps[i], t);
    }
    assert served[0..] == served;
    SitsPatched(src, 0, swaps, served, 0);
  }

  lemma {:induction false} ThereAt(swaps: seq<Swap>, i: nat)
    requires i < |swaps|
    ensures There(swaps)[i] == swaps[i].edit
  {
    if i > 0 {
      ThereAt(swaps[1..], i - 1);
    }
  }

  /** Turned back, the page is what it was exactly when it had no descriptor and every attribute is. */
  lemma {:induction false} PageBack(src: string, marks: seq<Mark>, serve: Serve, t: Turning, note: Option<Note>, served: string, read: string -> string, opens: string -> bool)
    requires Scanned(src, marks, 0) && Writes(t) && Clear(serve, t) && Decodes(read) && AllRead(Candidates(marks), read)
    requires Opening(src, marks, opens) && !LoneBracket(src, marks)
    requires Sits(src, 0, Plan(marks, serve, t, note), served, 0)
    ensures var swaps := Plan(marks, serve, t, note);
      && Ascending(Whole(swaps), 0, |src|)
      && (Patched(src, 0, Whole(swaps)) == src <==> !HasMap(marks) && forall i :: 0 <= i < |Candidates(marks)| ==> Restored(Candidates(marks)[i], serve, t))
  {
    PlanRestores(src, marks, serve, t, note, 0, read, opens);
    WholeBack(src, 0, Plan(marks, serve, t, note), served, 0);
    EachRestored(Candidates(marks), serve, t);
    assert src[0..] == src;
  }

  // ----- the two passes -----

  /** Whether the page can be projected at all: one release for all its URLs, and every file there. */
  method Survey(cs: seq<Candidate>, look: Candidate -> Look) returns (reason: Option<Reason>)
    ensures reason == Refusal(cs, look)
  {
    var missing, absent, versions := false, false, [];
    for i := 0 to |cs|
      invariant Surveyed(cs[..i], look, missing, absent, versions)
    {
      var l := look(cs[i]);
      assert cs[..i + 1] == cs[..i] + [cs[i]];
      SurveyedMore(cs[..i], look, missing, absent, versions, cs[i]);
      match l
      case Nothing =>
      case Pathless => absent := true;
      case Wants(version, gone) =>
        missing := missing || gone;
        if version !in versions {
          versions := versions + [version];
        }
    }
    assert cs[..|cs|] == cs;
    OneVersion(cs, look, versions);
    return if missing then Some(ReleaseMissing) else if absent then Some(PathMissing) else if |versions| > 1 then Some(MixedVersions) else None;
  }

  ghost predicate Surveyed(cs: seq<Candidate>, look: Candidate -> Look, missing: bool, absent: bool, versions: seq<string>) {
    && (missing <==> exists k :: 0 <= k < |cs| && Missing(look(cs[k])))
    && (absent <==> exists k :: 0 <= k < |cs| && look(cs[k]) == Pathless)
    && Collected(cs, look, versions)
  }

  lemma {:induction false} SurveyedMore(cs: seq<Candidate>, look: Candidate -> Look, missing: bool, absent: bool, versions: seq<string>, c: Candidate)
    requires Surveyed(cs, look, missing, absent, versions)
    ensures Surveyed(cs + [c], look, missing || Missing(look(c)), absent || look(c) == Pathless,
                     if look(c).Wants? && look(c).version !in versions then versions + [look(c).version] else versions)
  {
    var more := cs + [c];
    assert more[|cs|] == c && forall k :: 0 <= k < |cs| ==> more[k] == cs[k];
    CollectedMore(cs, look, versions, c);
  }

  ghost predicate WantedBy(cs: seq<Candidate>, look: Candidate -> Look, v: string) {
    exists k :: 0 <= k < |cs| && look(cs[k]).Wants? && look(cs[k]).version == v
  }

  /** The versions wanted, none twice. */
  ghost predicate Collected(cs: seq<Candidate>, look: Candidate -> Look, versions: seq<string>) {
    && (forall v :: v in versions <==> WantedBy(cs, look, v))
    && forall a, b :: 0 <= a < b < |versions| ==> versions[a] != versions[b]
  }

  lemma {:induction false} CollectedMore(cs: seq<Candidate>, look: Candidate -> Look, versions: seq<string>, c: Candidate)
    requires Collected(cs, look, versions)
    ensures Collected(cs + [c], look, if look(c).Wants? && look(c).version !in versions then versions + [look(c).version] else versions)
  {
    var more := cs + [c];
    assert more[|cs|] == c && forall k :: 0 <= k < |cs| ==> more[k] == cs[k];
    assert forall v :: WantedBy(more, look, v) <==> WantedBy(cs, look, v) || (look(c).Wants? && look(c).version == v);
  }

  lemma {:induction false} OneVersion(cs: seq<Candidate>, look: Candidate -> Look, versions: seq<string>)
    requires Collected(cs, look, versions)
    ensures Mixed(cs, look) <==> |versions| > 1
  {
    if |versions| > 1 {
      assert versions[0] in versions && versions[1] in versions;
      var i :| 0 <= i < |cs| && look(cs[i]).Wants? && look(cs[i]).version == versions[0];
      var j :| 0 <= j < |cs| && look(cs[j]).Wants? && look(cs[j]).version == versions[1];
      assert if i < j then Differ(look(cs[i]), look(cs[j])) else Differ(look(cs[j]), look(cs[i]));
    }
    if Mixed(cs, look) {
      var i, j :| 0 <= i < j < |cs| && Differ(look(cs[i]), look(cs[j]));
      assert WantedBy(cs, look, look(cs[i]).version) && WantedBy(cs, look, look(cs[j]).version);
    }
  }

  /** How a descriptor is spelled: its script, and the JSON in it. */
  type Spell = seq<Url.Entry> -> Note

  /** ProjectRuntimeHTML on what its scan found. */
  method ProjectPage(src: string, marks: seq<Mark>, o: Options, spell: Spell, noDescriptor: bool) returns (p: Projection)
    requires Scanned(src, marks, 0)
    ensures p.Unavailable? <==> Refusal(Candidates(marks), LookOf(o)).Some?
    ensures p.Unavailable? ==> Refusal(Candidates(marks), LookOf(o)) == Some(p.reason)
    ensures var serve, mappings := ServeOf(o), Mappings(Candidates(marks), ServeOf(o));
      var placed := Placed(Candidates(marks), serve, NoteFor(mappings, spell, noDescriptor));
      InText(placed, |src|) && (!p.Unavailable? ==> p == if mappings == [] then Untouched else Projected(Patched(src, 0, placed), mappings))
  {
    var cs := Candidates(marks);
    ghost var serve := ServeOf(o);
    ghost var note := NoteFor(Mappings(cs, serve), spell, noDescriptor);
    PlanIsPlaced(src, marks, serve, Turning(value => value, (raw, value, quote) => raw), note);
    var reason := Survey(cs, LookOf(o));
    if reason.Some? {
      return Unavailable(reason.value);
    }
    var splices, mappings, insertAt := Splices(cs, o);
    if mappings == [] {
      return Untouched;
    }
    PlacedIs(cs, serve, note);
    TaggedWhenMapped(cs, serve);
    if !noDescriptor {
      splices := splices + [Edit(insertAt.value, insertAt.value, spell(mappings).text)];
    }
    var html := ApplySplices(src, splices, Placed(cs, serve, note));
    return Projected(html, mappings);
  }

  function NoteFor(mappings: seq<Url.Entry>, spell: Spell, noDescriptor: bool): Option<Note> {
    if noDescriptor then None else Some(spell(mappings))
  }

  /** The splices of the attributes, in order, and where the first tag begins. */
  method Splices(cs: seq<Candidate>, o: Options) returns (splices: seq<Edit<char>>, mappings: seq<Url.Entry>, insertAt: Option<nat>)
    requires Refusal(cs, LookOf(o)).None?
    ensures splices == Moves(cs, ServeOf(o)) && mappings == Mappings(cs, ServeOf(o)) && insertAt == FirstTag(cs, ServeOf(o))
  {
    ghost var serve := ServeOf(o);
    splices, mappings, insertAt := [], [], None;
    for i := 0 to |cs|
      invariant splices + Moves(cs[i..], serve) == Moves(cs, serve)
      invariant mappings + Mappings(cs[i..], serve) == Mappings(cs, serve)
      invariant (if insertAt.Some? then insertAt else FirstTag(cs[i..], serve)) == FirstTag(cs, serve)
    {
      var c := cs[i];
      var local := Served(c, o);
      Rest(cs, serve, i);
      if local.Some? {
        var text := Respell(c.here.raw, c.here.value, local.value, c.here.quote);
        var edit, mapping := Edit(c.here.from, c.here.to, text), Url.Entry(Some(c.here.value), Some(local.value));
        Assoc(splices, [edit], Moves(cs[i + 1..], serve));
        Assoc(mappings, [mapping], Mappings(cs[i + 1..], serve));
        splices, mappings := splices + [edit], mappings + [mapping];
        if insertAt.None? {
          insertAt := Some(c.tag);
        }
      }
    }
  }

  lemma {:induction false} Rest(cs: seq<Candidate>, serve: Serve, i: nat)
    requires i < |cs|
    ensures var c, local := cs[i], serve(cs[i].here.value);
      && Moves(cs[i..], serve) == (if local.None? then [] else [Edit(c.here.from, c.here.to, Respelled(c.here.raw, c.here.value, local.value, c.here.quote))]) + Moves(cs[i + 1..], serve)
      && Mappings(cs[i..], serve) == (if local.None? then [] else [Url.Entry(Some(c.here.value), local)]) + Mappings(cs[i + 1..], serve)
      && FirstTag(cs[i..], serve) == if local.Some? then Some(c.tag) else FirstTag(cs[i + 1..], serve)
  {
    assert cs[i..][0] == cs[i] && cs[i..][1..] == cs[i + 1..];
  }

  method Served(c: Candidate, o: Options) returns (local: Option<string>)
    requires !Missing(LookOf(o)(c))
    ensures local == ServeOf(o)(c.here.value)
  {
    var result := ResolvedAs(c, o);
    return if result.None? then None else Some(result.value.local);
  }

  /** What is served for each URL of the page: nothing on a page that is not projected. */
  function ServedOn(p: Projection, o: Options): Serve {
    if p.Projected? then ServeOf(o) else value => None
  }

  function NoteOn(p: Projection, spell: Spell, noDescriptor: bool): Option<Note> {
    if p.Projected? then NoteFor(p.mappings, spell, noDescriptor) else None
  }

  /** How the way back turns the page's URLs: by the first descriptor there is, the page's own or the one put in. */
  function TurningOn(p: Projection, marks: seq<Mark>, o: Options, spell: Spell, noDescriptor: bool, h: Home): Turning {
    TurningOf(WayOf(FirstNote(marks, ServedOn(p, o), NoteOn(p, spell, noDescriptor)), h))
  }

  /** The page as it is served. */
  function HTMLOf(p: Projection, src: string): string {
    if p.Projected? then p.html else src
  }

  /**
   Any page projected, or not, and turned back is, byte for byte, the page it was exactly when it has no
   descriptor of its own, every attribute that was made local is turned back into its own URL and its spelling
   can be written again, and none that was left alone is turned.
   */
  method ThereAndBack(src: string, marks: seq<Mark>, o: Options, spell: Spell, noDescriptor: bool, h: Home,
                      ghost read: string -> string, ghost opens: string -> bool) returns (p: Projection, back: string)
    requires Scanned(src, marks, 0) && Decodes(read) && AllRead(Candidates(marks), read) && Opening(src, marks, opens)
    requires h.releases == o.releases && Url.Plain(o.releases, o.selected)
    ensures !LoneBracket(src, marks) ==>
      var t := TurningOn(p, marks, o, spell, noDescriptor, h);
      back == src <==> !HasMap(marks) && forall i :: 0 <= i < |Candidates(marks)| ==> Restored(Candidates(marks)[i], ServedOn(p, o), t)
  {
    p := ProjectPage(src, marks, o, spell, noDescriptor);
    var serve, note := ServedOn(p, o), NoteOn(p, spell, noDescriptor);
    var t := TurningOn(p, marks, o, spell, noDescriptor, h);
    var swaps, served := Plan(marks, serve, t, note), HTMLOf(p, src);
    PlanIsPlaced(src, marks, serve, t, note);
    UnmovedPage(Candidates(marks), note);
    NothingPlaced(src);
    PlanSits(src, marks, serve, t, note, served);
    FirstIsFirst(marks, serve, t, note, 0, 0);
    FoundStands(src, 0, swaps, served, 0);
    TurningWrites(WayOf(FirstNote(marks, serve, note), h));
    TurningClear(p, marks, o, spell, noDescriptor, h);
    if !LoneBracket(src, marks) {
      PageBack(src, marks, serve, t, note, served, read, opens);
    }
    back := TurnPageBack(src, swaps, served, h, t);
  }

  lemma {:induction false} NothingPlaced(src: string)
    ensures Patched(src, 0, []) == src
  {
  }

  /** Where nothing is served nothing is put in. */
  lemma {:induction false} UnmovedPage(cs: seq<Candidate>, note: Option<Note>)
    ensures Placed(cs, value => None, note) == []
  {
    if cs != [] {
      UnmovedPage(cs[1..], note);
    }
  }

  lemma {:induction false} TurningClear(p: Projection, marks: seq<Mark>, o: Options, spell: Spell, noDescriptor: bool, h: Home)
    requires h.releases == o.releases && Url.Plain(o.releases, o.selected)
    ensures Clear(ServedOn(p, o), TurningOn(p, marks, o, spell, noDescriptor, h))
  {
    var t, entries := TurningOn(p, marks, o, spell, noDescriptor, h), EntriesOf(FirstNote(marks, ServedOn(p, o), NoteOn(p, spell, noDescriptor)), h);
    forall v | ServedOn(p, o)(v).Some? ensures '\r' !in ServedOn(p, o)(v).value {
      Url.ServedIsPlain(v, o.releases, o.selected, o.origin, o.utf8);
    }
    forall v ensures t.canon(v) == v || '\r' !in t.canon(v) {
      Url.CanonicalIsPlain(v, entries, h.releases, o.selected, h.origin, h.utf8);
    }
  }

  lemma {:induction false} MappedAt(cs: seq<Candidate>, serve: Serve, i: nat)
    requires i < |cs| && serve(cs[i].here.value).Some?
    ensures Url.Entry(Some(cs[i].here.value), serve(cs[i].here.value)) in Mappings(cs, serve)
  {
    if i > 0 {
      MappedAt(cs[1..], serve, i - 1);
    }
  }

  lemma {:induction false} MappingsMade(cs: seq<Candidate>, o: Options)
    ensures Url.Made(Mappings(cs, ServeOf(o)), o.releases, o.selected, o.origin, o.utf8)
  {
    if cs != [] {
      MappingsMade(cs[1..], o);
    }
  }

  // ----- what that comes to, attribute by attribute -----

  /** A page without a descriptor of its own is turned back by the one put in, when one is. */
  lemma {:induction false} OwnNote(marks: seq<Mark>, serve: Serve, note: Option<Note>)
    requires !HasMap(marks)
    ensures FirstNote(marks, serve, note) == if note.Some? && Mappings(Candidates(marks), serve) != [] then Some(note.value.json) else None
  {
    if marks != [] {
      HasMapFront(marks);
      CandidatesFront(marks);
      OwnNote(marks[1..], serve, note);
    }
  }

  /** The way back that reads these entries. */
  function Through(entries: seq<Url.Entry>, o: Options, docOrigin: string): Turning {
    TurningOf(Way(entries, o.releases, docOrigin, o.utf8))
  }

  /**
   So a page without a descriptor of its own is turned back by the entries of its own URLs, when a descriptor
   was put in and reads as what it was written from, and by none otherwise.
   */
  lemma {:induction false} TurnedBy(p: Projection, marks: seq<Mark>, o: Options, spell: Spell, noDescriptor: bool, h: Home)
    requires !HasMap(marks) && h.releases == o.releases && h.utf8 == o.utf8
    requires p.Projected? ==> p.mappings == Mappings(Candidates(marks), ServeOf(o)) != []
    requires p.Projected? && !noDescriptor ==> h.parse(spell(p.mappings).json) == Some(p.mappings)
    ensures TurningOn(p, marks, o, spell, noDescriptor, h) == Through(if p.Projected? && !noDescriptor then p.mappings else [], o, h.origin)
  {
    OwnNote(marks, ServedOn(p, o), NoteOn(p, spell, noDescriptor));
  }

  /**
   With the descriptor that was put in, a URL made local comes back exactly when it is the first of the page
   with its local URL, and its text when its spelling does; one that was left alone stays exactly unless it is
   a local URL itself.
   */
  lemma {:induction false} RestoredExactly(cs: seq<Candidate>, o: Options, docOrigin: string, i: nat)
    requires Url.Good(o.releases, o.selected, o.utf8) && i < |cs|
    ensures var a, serve, mappings := cs[i].here, ServeOf(o), Mappings(cs, ServeOf(o));
      Restored(cs[i], serve, Through(mappings, o, docOrigin)) <==>
        match serve(a.value)
        case Some(local) => Url.FirstFor(mappings, local) == Some(a.value) && ComesBack(a.raw, a.value, local, a.quote)
        case None => !IsLocal(a.value, o, docOrigin)
  {
    var a, serve := cs[i].here, ServeOf(o);
    MappingsMade(cs, o);
    if serve(a.value).Some? {
      MappedAt(cs, serve, i);
      Url.RoundTrip(a.value, o.releases, o.selected, o.origin, o.utf8, Mappings(cs, serve), docOrigin);
    } else if IsLocal(a.value, o, docOrigin) {
      Url.LocalIsTurned(a.value, o.releases, o.selected, o.origin, o.utf8, Mappings(cs, serve), docOrigin);
    }
  }

  predicate IsLocal(value: string, o: Options, docOrigin: string) {
    var p := Url.Parse(value, docOrigin, o.utf8);
    p.Some? && p.value.kind.Local?
  }

  /** On a page that is not projected a URL stays exactly unless it is a local URL. */
  lemma {:induction false} UnservedExactly(c: Candidate, o: Options, docOrigin: string)
    ensures Restored(c, value => None, Through([], o, docOrigin)) <==> !IsLocal(c.here.value, o, docOrigin)
  {
    if IsLocal(c.here.value, o, docOrigin) {
      Url.CanonicalIs(c.here.value, [], o.releases, docOrigin, o.utf8);
      Url.PublicIsNotLocal(Url.Canonical(c.here.value, [], o.releases, docOrigin, o.utf8), docOrigin, o.utf8);
    }
  }

  /** A page that holds no more than a descriptor and text loses the descriptor. */
  lemma {:induction false} OwnIsTaken(own: string, json: string, rest: string, serve: Serve, t: Turning, note: Option<Note>)
    requires own != ""
    ensures var src, marks := own + rest, [Map(0, |own|, own, json)];
      var edits := Whole(Plan(marks, serve, t, note));
      Scanned(src, marks, 0) && Ascending(edits, 0, |src|) && Patched(src, 0, edits) == rest && rest != src
  {
    var src, m := own + rest, Map(0, |own|, own, json);
    assert src[0..|own|] == own && src[|own|..] == rest;
    MapGone(src, m);
    assert [m][1..] == [] && Plan([m], serve, t, note) == [MapOf(m)];
    WholeFront(MapOf(m), []);
    assert [MapOf(m)] + [] == [MapOf(m)] && Whole([MapOf(m)]) == [Edit(0, |own|, "")] + [];
    OneInFront(src, 0, Edit(0, |own|, ""), []);
  }

  /** A descriptor of the page's own that stands first and cannot be read hides the one put in: rolling URLs do not come back. */
  lemma {:induction false} OwnHides(own: Mark, tail: seq<Mark>, c: Candidate, o: Options, note: Option<Note>, h: Home, rawPath: string, search: string, hash: string)
    requires own.Map? && h.parse(own.json) == None && h.releases == o.releases && h.utf8 == o.utf8
    requires Url.IsVersion(o.selected) && Url.Movable(rawPath, search, hash) && Url.DecodePath(rawPath, o.utf8).Some?
    requires Url.FilesOf(o.releases, o.selected).Some? && Url.DecodePath(rawPath, o.utf8).value in Url.FilesOf(o.releases, o.selected).value
    requires c.here.value == Url.RollingURL(o.selected, rawPath + search + hash) && c.here.value !in o.releases[o.selected].aliases
    ensures !Restored(c, ServeOf(o), TurningOf(WayOf(FirstNote([own] + tail, ServeOf(o), note), h)))
  {
    Url.Undescribed(o.selected, rawPath, search, hash, o.releases, o.origin, o.utf8, h.origin);
  }

  /** Where no two URLs of the page share a local URL, only the spelling counts. */
  lemma {:induction false} ApartSpelling(cs: seq<Candidate>, o: Options, docOrigin: string, i: nat)
    requires Url.Good(o.releases, o.selected, o.utf8) && Url.Apart(Mappings(cs, ServeOf(o)))
    requires i < |cs| && ServeOf(o)(cs[i].here.value).Some?
    ensures var a, serve := cs[i].here, ServeOf(o);
      Restored(cs[i], serve, Through(Mappings(cs, serve), o, docOrigin)) == ComesBack(a.raw, a.value, serve(a.value).value, a.quote)
  {
    var a, serve := cs[i].here, ServeOf(o);
    MappedAt(cs, serve, i);
    MappingsMade(cs, o);
    Url.ApartComeBack(a.value, o.releases, o.selected, o.origin, o.utf8, Mappings(cs, serve), docOrigin);
  }
}
