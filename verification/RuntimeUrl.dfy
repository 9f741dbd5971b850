/**
 Runtime URLs, their local stand-ins, and the way back (internal/clayruntime/resolve.go). Text is taken
 byte by byte.
 */
module RuntimeUrl {
  import opened Values

  const LOCAL_PREFIX := "/_/clayjs/"
  const ROLLING_PREFIX := "https://clayjs.com/v"
  const EXACT_PREFIX := "https://clayjs.com/"

  // ----- the parts of a URL -----

  /** Where `c` first stands, the length when nowhere. */
  function Find(s: string, c: char): (i: nat)
    ensures i <= |s| && c !in s[..i] && (i < |s| ==> s[i] == c)
  {
    if s == [] || s[0] == c then 0
    else
      var rest := Find(s[1..], c);
      assert s[..rest + 1] == [s[0]] + s[1..][..rest];
      rest + 1
  }

  /** splitURL. */
  function SplitURL(raw: string): (parts: (string, string, string))
    ensures raw == parts.0 + parts.1 + parts.2 && ArePieces(parts.0, parts.1, parts.2)
  {
    var hashAt := Find(raw, '#');
    var withoutHash := raw[..hashAt];
    var searchAt := Find(withoutHash, '?');
    assert withoutHash == withoutHash[..searchAt] + withoutHash[searchAt..];
    (withoutHash[..searchAt], withoutHash[searchAt..], raw[hashAt..])
  }

  predicate ArePieces(head: string, search: string, hash: string) {
    && '#' !in head && '?' !in head && '#' !in search
    && (search == "" || search[0] == '?') && (hash == "" || hash[0] == '#')
  }

  lemma {:induction false} FindIs(s: string, c: char, i: nat)
    requires i <= |s| && c !in s[..i] && (i < |s| ==> s[i] == c)
    ensures Find(s, c) == i
  {
    if i > 0 {
      assert s[..i][0] == s[0];
      assert s[1..][..i - 1] == s[..i][1..];
      FindIs(s[1..], c, i - 1);
    }
  }

  /** Pieces that could have come from a URL are what it splits into. */
  lemma {:induction false} PiecesSplit(head: string, search: string, hash: string)
    requires ArePieces(head, search, hash)
    ensures SplitURL(head + search + hash) == (head, search, hash)
  {
    var front := head + search;
    var raw := front + hash;
    assert raw[..|front|] == front && raw[|front|..] == hash;
    FindIs(raw, '#', |front|);
    assert front[..|head|] == head && front[|head|..] == search;
    FindIs(front, '?', |head|);
  }

  // ----- versions -----

  predicate IsDigit(c: char) {
    '0' <= c <= '9'
  }

  function DigitsEnd(s: string, i: nat): (r: nat)
    requires i <= |s|
    ensures i <= r <= |s| && (forall k :: i <= k < r ==> IsDigit(s[k])) && (r < |s| ==> !IsDigit(s[r]))
    decreases |s| - i
  {
    if i < |s| && IsDigit(s[i]) then DigitsEnd(s, i + 1) else i
  }

  /** The rest of a version, three numbers between dots, of which `dots` dots have passed. */
  predicate VersionFrom(v: string, i: nat, dots: nat, seen: bool)
    decreases |v| - i
  {
    if i >= |v| then dots == 2 && seen
    else if IsDigit(v[i]) then VersionFrom(v, i + 1, dots, true)
    else v[i] == '.' && seen && dots < 2 && VersionFrom(v, i + 1, dots + 1, false)
  }

  predicate IsVersion(v: string) {
    VersionFrom(v, 0, 0, false)
  }

  /** Where a version followed by a slash ends. */
  function VersionEnd(s: string, i: nat, dots: nat, seen: bool): Option<nat>
    decreases |s| - i
  {
    if i >= |s| then None
    else if IsDigit(s[i]) then VersionEnd(s, i + 1, dots, true)
    else if s[i] == '/' && dots == 2 && seen then Some(i)
    else if s[i] == '.' && seen && dots < 2 then VersionEnd(s, i + 1, dots + 1, false)
    else None
  }

  lemma {:induction false} VersionEnds(v: string, rest: string, i: nat, dots: nat, seen: bool)
    requires i <= |v| && VersionFrom(v, i, dots, seen)
    ensures VersionEnd(v + "/" + rest, i, dots, seen) == Some(|v|)
    decreases |v| - i
  {
    var s := v + "/" + rest;
    if i < |v| {
      assert s[i] == v[i];
      VersionEnds(v, rest, i + 1, if IsDigit(v[i]) then dots else dots + 1, IsDigit(v[i]));
    } else {
      assert s[i] == '/';
    }
  }

  lemma {:induction false} EndIsVersion(s: string, i: nat, dots: nat, seen: bool)
    requires i <= |s| && VersionEnd(s, i, dots, seen).Some?
    ensures var n := VersionEnd(s, i, dots, seen).value; i <= n < |s| && s[n] == '/' && VersionFrom(s[..n], i, dots, seen)
    decreases |s| - i
  {
    if IsDigit(s[i]) {
      EndIsVersion(s, i + 1, dots, true);
    } else if !(s[i] == '/' && dots == 2 && seen) {
      EndIsVersion(s, i + 1, dots + 1, false);
    }
  }

  /** majorOf: empty for what is no version. */
  function MajorOf(version: string): string {
    if IsVersion(version) then version[..DigitsEnd(version, 0)] else ""
  }

  // ----- paths -----

  function Unhex(c: char): Option<nat> {
    if '0' <= c <= '9' then Some((c - '0') as int)
    else if 'a' <= c <= 'f' then Some((c - 'a') as int + 10)
    else if 'A' <= c <= 'F' then Some((c - 'A') as int + 10)
    else None
  }

  function Percent(raw: string): Option<string>
    decreases |raw|
  {
    if raw == [] then Some([])
    else if raw[0] != '%' then
      var rest := Percent(raw[1..]);
      if rest.None? then None else Some([raw[0]] + rest.value)
    else if |raw| < 3 || Unhex(raw[1]).None? || Unhex(raw[2]).None? then None
    else
      var rest := Percent(raw[3..]);
      if rest.None? then None else Some([(Unhex(raw[1]).value * 16 + Unhex(raw[2]).value) as char] + rest.value)
  }

  predicate Dots(s: string) {
    s == "." || s == ".."
  }

  /** decodeURIComponent on one segment, and what must not come out of it. `utf8` tells valid bytes. */
  function DecodeSegment(segment: string, utf8: string -> bool): Option<string> {
    var value := Percent(segment);
    if segment == "" || Dots(segment) || value.None? || !utf8(value.value) then None
    else if '/' in value.value || '\\' in value.value || Dots(value.value) then None
    else value
  }

  function Lower(c: char): char {
    if 'A' <= c <= 'Z' then c - 'A' + 'a' else c
  }

  /** An escaped dot, slash or backslash. */
  predicate Suspect(s: string) {
    exists i :: 0 <= i < |s| - 2 && s[i] == '%' &&
      ((s[i + 1] == '2' && (Lower(s[i + 2]) == 'e' || Lower(s[i + 2]) == 'f')) || (s[i + 1] == '5' && Lower(s[i + 2]) == 'c'))
  }

  function DecodeSegments(raw: string, utf8: string -> bool): Option<string>
    decreases |raw|
  {
    var at := Find(raw, '/');
    var first := DecodeSegment(raw[..at], utf8);
    if first.None? then None
    else if at == |raw| then first
    else
      var rest := DecodeSegments(raw[at + 1..], utf8);
      if rest.None? then None else Some(first.value + "/" + rest.value)
  }

  /** decodePath. */
  function DecodePath(raw: string, utf8: string -> bool): Option<string> {
    if raw == "" || '\\' in raw || Suspect(raw) then None else DecodeSegments(raw, utf8)
  }

  // ----- parsing -----

  datatype Kind = Rolling | Exact | Local

  datatype Parsed = Parsed(kind: Kind, major: string, version: string, rawPath: string, path: string, search: string, hash: string)

  predicate EdgeSpace(c: char) {
    c == '\t' || c == '\n' || c == '\U{0C}' || c == '\r' || c == ' '
  }

  predicate Control(c: char) {
    c < ' ' || c == '\U{7F}'
  }

  predicate Clean(raw: string) {
    raw != "" && !EdgeSpace(raw[0]) && !EdgeSpace(raw[|raw| - 1]) && forall i :: 0 <= i < |raw| ==> !Control(raw[i])
  }

  function AfterRolling(head: string): Option<(string, string)> {
    if !(ROLLING_PREFIX <= head) then None
    else
      var rest := head[|ROLLING_PREFIX|..];
      var n := DigitsEnd(rest, 0);
      if 0 < n < |rest| && rest[n] == '/' then Some((rest[..n], rest[n + 1..])) else None
  }

  function AfterVersion(head: string, prefix: string): Option<(string, string)> {
    if !(prefix <= head) then None
    else
      var rest := head[|prefix|..];
      var n := VersionEnd(rest, 0, 0, false);
      if n.Some? && n.value < |rest| then Some((rest[..n.value], rest[n.value + 1..])) else None
  }

  datatype Shape = NoShape | Shape(kind: Kind, major: string, version: string, rawPath: string)

  function VersionShape(kind: Kind, at: Option<(string, string)>): Shape {
    if at.None? then NoShape else Shape(kind, MajorOf(at.value.0), at.value.0, at.value.1)
  }

  /** Which pattern the part before query and hash has; `origin` is the document's own, empty for none. */
  function ShapeOf(head: string, origin: string): Shape {
    if AfterRolling(head).Some? then Shape(Rolling, AfterRolling(head).value.0, "", AfterRolling(head).value.1)
    else if AfterVersion(head, EXACT_PREFIX).Some? then VersionShape(Exact, AfterVersion(head, EXACT_PREFIX))
    else if AfterVersion(head, LOCAL_PREFIX).Some? then VersionShape(Local, AfterVersion(head, LOCAL_PREFIX))
    else if origin != "" && origin + "/" <= head then VersionShape(Local, AfterVersion(head[|origin|..], LOCAL_PREFIX))
    else NoShape
  }

  /** ParseRuntimeURL. */
  function Parse(raw: string, origin: string, utf8: string -> bool): Option<Parsed> {
    if !Clean(raw) then None
    else
      var parts := SplitURL(raw);
      var shape := ShapeOf(parts.0, origin);
      if shape.NoShape? then None
      else
        var path := DecodePath(shape.rawPath, utf8);
        if path.None? then None
        else Some(Parsed(shape.kind, shape.major, shape.version, shape.rawPath, path.value, parts.1, parts.2))
  }

  // ----- resolving -----

  /** A bundled release; its file list may be missing. */
  datatype Release = Release(files: Option<set<string>>, aliases: map<string, string>)

  datatype Resolution = Alias(version: string, path: string, local: string) | Available(parsed: Parsed, version: string, local: string) | Absent(parsed: Parsed)

  function FilesOf(releases: map<string, Release>, version: string): Option<set<string>> {
    if version in releases then releases[version].files else None
  }

  function LocalURL(version: string, rest: string): string {
    LOCAL_PREFIX + version + "/" + rest
  }

  /** ResolveRuntimeURL. */
  function Resolve(raw: string, releases: map<string, Release>, selected: string, origin: string, utf8: string -> bool): Option<Resolution> {
    if FilesOf(releases, selected).Some? && raw in releases[selected].aliases then
      var target := releases[selected].aliases[raw];
      Some(Alias(selected, target, LocalURL(selected, target)))
    else
      var parsed := Parse(raw, origin, utf8);
      if parsed.None? || parsed.value.kind.Local? then None
      else if parsed.value.kind.Rolling? then
        if MajorOf(selected) == "" || MajorOf(selected) != parsed.value.major then None else Bundled(parsed.value, selected, releases)
      else if FilesOf(releases, parsed.value.version).None? then Some(Absent(parsed.value))
      else Bundled(parsed.value, parsed.value.version, releases)
  }

  function Bundled(parsed: Parsed, version: string, releases: map<string, Release>): Option<Resolution> {
    var files := FilesOf(releases, version);
    if files.None? || parsed.path !in files.value then None
    else Some(Available(parsed, version, LocalURL(version, parsed.rawPath + parsed.search + parsed.hash)))
  }

  // ----- and back -----

  /** One entry of a page's descriptor; a field that is no text is none. */
  datatype Entry = Entry(original: Option<string>, local: Option<string>)

  predicate IsAliasOf(releases: map<string, Release>, local: Parsed, original: string) {
    && local.version in releases && local.search == "" && local.hash == ""
    && original in releases[local.version].aliases && releases[local.version].aliases[original] == local.path
  }

  function Spelled(kind: Kind, major: string, version: string, rest: string): string {
    if kind.Rolling? then ROLLING_PREFIX + major + "/" + rest else EXACT_PREFIX + version + "/" + rest
  }

  predicate SameRelease(parsed: Parsed, local: Parsed) {
    if parsed.kind.Rolling? then parsed.major == MajorOf(local.version) else parsed.kind.Exact? && parsed.version == local.version
  }

  /** What an entry for this very URL says, none when it does not fit it. */
  function Exactly(entry: Entry, value: string, local: Parsed, releases: map<string, Release>, utf8: string -> bool): Option<string> {
    if entry.local != Some(value) || entry.original.None? then None
    else
      var original := entry.original.value;
      if IsAliasOf(releases, local, original) then Some(original)
      else
        var parsed := Parse(original, "", utf8);
        if parsed.None? || !SameRelease(parsed.value, local) then None
        else if parsed.value.rawPath != local.rawPath || parsed.value.search != local.search || parsed.value.hash != local.hash then None
        else if FilesOf(releases, local.version).None? || local.path !in FilesOf(releases, local.version).value then None
        else if parsed.value.kind.Exact? then Some(original)
        else Some(Spelled(Rolling, parsed.value.major, "", local.rawPath + local.search + local.hash))
  }

  /** What an entry for another URL of the same file says. */
  function Roughly(entry: Entry, local: Parsed, utf8: string -> bool): Option<string> {
    if entry.original.None? then None
    else
      var parsed := Parse(entry.original.value, "", utf8);
      if parsed.None? || parsed.value.rawPath != local.rawPath || !SameRelease(parsed.value, local) then None
      else Some(Spelled(parsed.value.kind, parsed.value.major, parsed.value.version, local.rawPath + local.search + local.hash))
  }

  /** The first answer there is. */
  function First(answers: seq<Option<string>>): Option<string> {
    if answers == [] then None else if answers[0].Some? then answers[0] else First(answers[1..])
  }

  function ExactAnswers(entries: seq<Entry>, value: string, local: Parsed, releases: map<string, Release>, utf8: string -> bool): (r: seq<Option<string>>)
    ensures |r| == |entries| && forall i :: 0 <= i < |r| ==> r[i] == Exactly(entries[i], value, local, releases, utf8)
  {
    seq(|entries|, i requires 0 <= i < |entries| => Exactly(entries[i], value, local, releases, utf8))
  }

  function RoughAnswers(entries: seq<Entry>, local: Parsed, utf8: string -> bool): (r: seq<Option<string>>)
    ensures |r| == |entries| && forall i :: 0 <= i < |r| ==> r[i] == Roughly(entries[i], local, utf8)
  {
    seq(|entries|, i requires 0 <= i < |entries| => Roughly(entries[i], local, utf8))
  }

  function Canonical(value: string, entries: seq<Entry>, releases: map<string, Release>, origin: string, utf8: string -> bool): string {
    var local := Parse(value, origin, utf8);
    if local.None? || !local.value.kind.Local? then value
    else
      var exact, rough := First(ExactAnswers(entries, value, local.value, releases, utf8)), First(RoughAnswers(entries, local.value, utf8));
      if exact.Some? then exact.value
      else if rough.Some? then rough.value
      else Spelled(Exact, "", local.value.version, local.value.rawPath + local.value.search + local.value.hash)
  }

  /** CanonicalizeRuntimeURL: one scan for this very URL, another for its file. */
  method CanonicalizeRuntimeURL(value: string, entries: seq<Entry>, releases: map<string, Release>, origin: string, utf8: string -> bool) returns (url: string)
    ensures url == Canonical(value, entries, releases, origin, utf8)
  {
    var local := Parse(value, origin, utf8);
    if local.None? || !local.value.kind.Local? {
      return value;
    }
    ghost var exact, rough := ExactAnswers(entries, value, local.value, releases, utf8), RoughAnswers(entries, local.value, utf8);
    for i := 0 to |entries|
      invariant First(exact) == First(exact[i..])
    {
      assert exact[i..][0] == exact[i] && exact[i..][1..] == exact[i + 1..];
      var found := Exactly(entries[i], value, local.value, releases, utf8);
      if found.Some? {
        return found.value;
      }
    }
    for i := 0 to |entries|
      invariant First(rough) == First(rough[i..])
    {
      assert rough[i..][0] == rough[i] && rough[i..][1..] == rough[i + 1..];
      var found := Roughly(entries[i], local.value, utf8);
      if found.Some? {
        return found.value;
      }
    }
    return Spelled(Exact, "", local.value.version, local.value.rawPath + local.value.search + local.value.hash);
  }

  // ----- there and back -----

  lemma {:induction false} AfterVersionIs(version: string, rest: string, prefix: string)
    requires IsVersion(version)
    ensures AfterVersion(prefix + (version + "/" + rest), prefix) == Some((version, rest))
  {
    var tail := version + "/" + rest;
    var head := prefix + tail;
    assert prefix <= head && head[|prefix|..] == tail;
    VersionEnds(version, rest, 0, 0, false);
    assert tail[..|version|] == version && tail[|version| + 1..] == rest;
  }

  lemma {:induction false} AfterVersionWas(head: string, prefix: string)
    requires AfterVersion(head, prefix).Some?
    ensures var at := AfterVersion(head, prefix).value; IsVersion(at.0) && head == prefix + (at.0 + "/" + at.1)
  {
    var rest := head[|prefix|..];
    EndIsVersion(rest, 0, 0, false);
    var n := VersionEnd(rest, 0, 0, false).value;
    assert rest == rest[..n] + "/" + rest[n + 1..];
    assert head == prefix + rest;
  }

  lemma {:induction false} AfterRollingWas(head: string)
    requires AfterRolling(head).Some?
    ensures var at := AfterRolling(head).value; head == ROLLING_PREFIX + (at.0 + "/" + at.1)
  {
    var rest := head[|ROLLING_PREFIX|..];
    var n := DigitsEnd(rest, 0);
    assert rest == rest[..n] + "/" + rest[n + 1..];
    assert head == ROLLING_PREFIX + rest;
  }

  /** A local URL is taken for nothing else. */
  lemma {:induction false} LocalShape(version: string, rawPath: string, origin: string)
    requires IsVersion(version)
    ensures ShapeOf(LOCAL_PREFIX + (version + "/" + rawPath), origin) == Shape(Local, MajorOf(version), version, rawPath)
  {
    var head := LOCAL_PREFIX + (version + "/" + rawPath);
    AfterVersionIs(version, rawPath, LOCAL_PREFIX);
    assert head[0] == '/' && ROLLING_PREFIX[0] == 'h' && EXACT_PREFIX[0] == 'h';
  }

  /** The path, query and hash of a URL, behind another head. */
  predicate Movable(rawPath: string, search: string, hash: string) {
    && rawPath != "" && '#' !in rawPath && '?' !in rawPath && ArePieces("", search, hash)
    && (forall i :: 0 <= i < |rawPath + search + hash| ==> !Control((rawPath + search + hash)[i]))
    && !EdgeSpace((rawPath + search + hash)[|rawPath + search + hash| - 1])
  }

  lemma {:induction false} VersionIsClean(v: string, i: nat, dots: nat, seen: bool)
    requires i <= |v| && VersionFrom(v, i, dots, seen)
    ensures forall k :: i <= k < |v| ==> IsDigit(v[k]) || v[k] == '.'
    decreases |v| - i
  {
    if i < |v| {
      VersionIsClean(v, i + 1, if IsDigit(v[i]) then dots else dots + 1, IsDigit(v[i]));
    }
  }

  /** What a URL can begin with: its path, query and hash are behind it. */
  ghost predicate Fronts(front: string) {
    front != "" && !EdgeSpace(front[0]) && '#' !in front && '?' !in front && forall i :: 0 <= i < |front| ==> !Control(front[i])
  }

  lemma {:induction false} FrontIsClean(front: string, rest: string)
    requires Fronts(front)
    requires rest != "" && !EdgeSpace(rest[|rest| - 1]) && forall i :: 0 <= i < |rest| ==> !Control(rest[i])
    ensures Clean(front + rest)
  {
    var url := front + rest;
    assert url[|url| - 1] == rest[|rest| - 1];
    assert forall i :: 0 <= i < |url| ==> url[i] == if i < |front| then front[i] else rest[i - |front|];
  }

  lemma {:induction false} FrontSplits(front: string, rawPath: string, search: string, hash: string)
    requires Fronts(front) && Movable(rawPath, search, hash)
    ensures var raw := front + (rawPath + search + hash); Clean(raw) && SplitURL(raw) == (front + rawPath, search, hash)
  {
    FrontIsClean(front, rawPath + search + hash);
    PiecesSplit(front + rawPath, search, hash);
    assert front + (rawPath + search + hash) == (front + rawPath) + search + hash;
  }

  /** A prefix, some digits and dots, and a slash. */
  lemma {:induction false} FrontOf(prefix: string, mid: string)
    requires Fronts(prefix) && forall k :: 0 <= k < |mid| ==> IsDigit(mid[k]) || mid[k] == '.'
    ensures Fronts(prefix + (mid + "/"))
  {
    var front := prefix + (mid + "/");
    forall i | 0 <= i < |front| ensures !Control(front[i]) && front[i] != '#' && front[i] != '?' {
      assert front[i] == if i < |prefix| then prefix[i] else if i < |prefix| + |mid| then mid[i - |prefix|] else '/';
    }
  }

  lemma {:induction false} PrefixFronts()
    ensures Fronts(LOCAL_PREFIX) && Fronts(EXACT_PREFIX) && Fronts(ROLLING_PREFIX)
  {
    assert LOCAL_PREFIX == ['/', '_', '/', 'c', 'l', 'a', 'y', 'j', 's', '/'];
    assert EXACT_PREFIX == ['h', 't', 't', 'p', 's', ':', '/', '/', 'c', 'l', 'a', 'y', 'j', 's', '.', 'c', 'o', 'm', '/'];
    assert ROLLING_PREFIX == ['h', 't', 't', 'p', 's', ':', '/', '/', 'c', 'l', 'a', 'y', 'j', 's', '.', 'c', 'o', 'm', '/', 'v'];
  }

  /** A URL put together from a prefix, a version or its like, and the rest, parses into them. */
  lemma {:induction false} FrontParses(prefix: string, mid: string, rawPath: string, search: string, hash: string, shape: Shape, origin: string, utf8: string -> bool)
    requires Fronts(prefix) && forall k :: 0 <= k < |mid| ==> IsDigit(mid[k]) || mid[k] == '.'
    requires Movable(rawPath, search, hash) && DecodePath(rawPath, utf8).Some?
    requires ShapeOf(prefix + (mid + "/" + rawPath), origin) == shape && shape.Shape? && shape.rawPath == rawPath
    ensures Parse(prefix + (mid + "/" + (rawPath + search + hash)), origin, utf8)
      == Some(Parsed(shape.kind, shape.major, shape.version, rawPath, DecodePath(rawPath, utf8).value, search, hash))
  {
    FrontPieces(prefix, mid, rawPath, search, hash);
    Split(prefix + (mid + "/" + (rawPath + search + hash)), prefix + (mid + "/" + rawPath), search, hash, shape, origin, utf8);
  }

  lemma {:induction false} FrontPieces(prefix: string, mid: string, rawPath: string, search: string, hash: string)
    requires Fronts(prefix) && forall k :: 0 <= k < |mid| ==> IsDigit(mid[k]) || mid[k] == '.'
    requires Movable(rawPath, search, hash)
    ensures var raw := prefix + (mid + "/" + (rawPath + search + hash));
      Clean(raw) && SplitURL(raw) == (prefix + (mid + "/" + rawPath), search, hash)
  {
    FrontOf(prefix, mid);
    FrontSplits(prefix + (mid + "/"), rawPath, search, hash);
    Regroup(prefix, mid, rawPath);
    Regroup(prefix, mid, rawPath + search + hash);
  }

  lemma {:induction false} Regroup(prefix: string, mid: string, rest: string)
    ensures prefix + (mid + "/" + rest) == (prefix + (mid + "/")) + rest
  {
  }

  lemma {:induction false} Split(raw: string, head: string, search: string, hash: string, shape: Shape, origin: string, utf8: string -> bool)
    requires Clean(raw) && SplitURL(raw) == (head, search, hash) && ShapeOf(head, origin) == shape && shape.Shape?
    requires DecodePath(shape.rawPath, utf8).Some?
    ensures Parse(raw, origin, utf8)
      == Some(Parsed(shape.kind, shape.major, shape.version, shape.rawPath, DecodePath(shape.rawPath, utf8).value, search, hash))
  {
  }

  lemma {:induction false} LocalIs(version: string, rest: string)
    ensures LocalURL(version, rest) == LOCAL_PREFIX + (version + "/" + rest)
  {
  }

  /** A local URL parses into the version and the parts it was made from. */
  lemma {:induction false} LocalParses(version: string, rawPath: string, search: string, hash: string, origin: string, utf8: string -> bool)
    requires IsVersion(version) && Movable(rawPath, search, hash) && DecodePath(rawPath, utf8).Some?
    ensures Parse(LocalURL(version, rawPath + search + hash), origin, utf8)
      == Some(Parsed(Local, MajorOf(version), version, rawPath, DecodePath(rawPath, utf8).value, search, hash))
  {
    VersionIsClean(version, 0, 0, false);
    LocalShape(version, rawPath, origin);
    PrefixFronts();
    FrontParses(LOCAL_PREFIX, version, rawPath, search, hash, Shape(Local, MajorOf(version), version, rawPath), origin, utf8);
    LocalIs(version, rawPath + search + hash);
  }

  /** What a URL of the two public kinds begins with. */
  function PublicFront(kind: Kind, major: string, version: string): string {
    if kind.Rolling? then ROLLING_PREFIX + (major + "/") else EXACT_PREFIX + (version + "/")
  }

  lemma {:induction false} PublicShape(head: string, origin: string)
    requires var shape := ShapeOf(head, origin); shape.Shape? && !shape.kind.Local?
    ensures var shape := ShapeOf(head, origin);
      && head == PublicFront(shape.kind, shape.major, shape.version) + shape.rawPath
      && (shape.kind.Exact? ==> IsVersion(shape.version)) && ShapeOf(head, "") == shape
  {
    var shape := ShapeOf(head, origin);
    if shape.kind.Rolling? {
      AfterRollingWas(head);
    } else {
      AfterVersionWas(head, EXACT_PREFIX);
    }
  }

  lemma {:induction false} TailMoves(raw: string, front: string, rawPath: string, search: string, hash: string)
    requires Clean(raw) && raw == front + rawPath + search + hash && rawPath != "" && ArePieces(front + rawPath, search, hash)
    ensures Movable(rawPath, search, hash)
  {
    var tail := rawPath + search + hash;
    assert raw == front + tail;
    assert forall i :: 0 <= i < |rawPath| ==> rawPath[i] == (front + rawPath)[|front| + i];
    assert forall i :: 0 <= i < |tail| ==> tail[i] == raw[|front| + i];
  }

  /** A parsed URL of a public kind is its front, path, query and hash. */
  ghost predicate IsPublic(raw: string, p: Parsed, utf8: string -> bool) {
    && !p.kind.Local? && raw == PublicFront(p.kind, p.major, p.version) + p.rawPath + p.search + p.hash
    && (p.kind.Exact? ==> IsVersion(p.version)) && Movable(p.rawPath, p.search, p.hash)
    && DecodePath(p.rawPath, utf8) == Some(p.path) && Parse(raw, "", utf8) == Some(p)
  }

  lemma {:induction false} PublicParts(raw: string, origin: string, utf8: string -> bool)
    requires Parse(raw, origin, utf8).Some? && !Parse(raw, origin, utf8).value.kind.Local?
    ensures IsPublic(raw, Parse(raw, origin, utf8).value, utf8)
  {
    var p := Parse(raw, origin, utf8).value;
    PublicShape(SplitURL(raw).0, origin);
    TailMoves(raw, PublicFront(p.kind, p.major, p.version), p.rawPath, p.search, p.hash);
  }

  lemma {:induction false} NotThisOne(entry: Entry, value: string, local: Parsed, releases: map<string, Release>, utf8: string -> bool)
    requires entry.local != Some(value)
    ensures Exactly(entry, value, local, releases, utf8) == None
  {
  }

  /** An alias target that stands for itself as a path. */
  predicate Straight(target: string, utf8: string -> bool) {
    Movable(target, "", "") && DecodePath(target, utf8) == Some(target)
  }

  /** A URL found in a release: which version serves it, and that the file is there. */
  lemma {:induction false} AvailableIs(u: string, releases: map<string, Release>, selected: string, origin: string, utf8: string -> bool)
    requires var r := Resolve(u, releases, selected, origin, utf8); r.Some? && r.value.Available?
    ensures var r := Resolve(u, releases, selected, origin, utf8).value;
      && Parse(u, origin, utf8) == Some(r.parsed) && !r.parsed.kind.Local?
      && r.version == (if r.parsed.kind.Rolling? then selected else r.parsed.version)
      && (r.parsed.kind.Rolling? ==> r.parsed.major == MajorOf(selected))
      && FilesOf(releases, r.version).Some? && r.parsed.path in FilesOf(releases, r.version).value
      && r.local == LocalURL(r.version, r.parsed.rawPath + r.parsed.search + r.parsed.hash)
  {
  }

  lemma {:induction false} SpelledAgain(p: Parsed)
    ensures PublicFront(Rolling, p.major, "") + p.rawPath + p.search + p.hash == Spelled(Rolling, p.major, "", p.rawPath + p.search + p.hash)
  {
  }

  lemma {:induction false} AvailableBack(u: string, p: Parsed, version: string, local: Parsed, value: string, releases: map<string, Release>, utf8: string -> bool)
    requires IsPublic(u, p, utf8) && IsVersion(version) && (p.kind.Exact? ==> version == p.version)
    requires p.kind.Rolling? ==> p.major == MajorOf(version)
    requires FilesOf(releases, version).Some? && p.path in FilesOf(releases, version).value
    requires local == Parsed(Local, MajorOf(version), version, p.rawPath, p.path, p.search, p.hash)
    ensures Exactly(Entry(Some(u), Some(value)), value, local, releases, utf8) == Some(u)
  {
    SpelledAgain(p);
  }

  /** The local URL a page gets for `u`, none where it is left alone. */
  function Served(u: string, releases: map<string, Release>, selected: string, origin: string, utf8: string -> bool): Option<string> {
    var r := Resolve(u, releases, selected, origin, utf8);
    if r.None? || r.value.Absent? then None else Some(r.value.local)
  }

  /** The selected release has a version, and its aliases lead to plain paths. */
  ghost predicate Good(releases: map<string, Release>, selected: string, utf8: string -> bool) {
    && IsVersion(selected)
    && (selected in releases ==> forall u :: u in releases[selected].aliases ==> Straight(releases[selected].aliases[u], utf8))
  }

  /** An entry for this very URL gives back what it was made from. */
  ghost predicate Answers(u: string, value: string, releases: map<string, Release>, docOrigin: string, utf8: string -> bool) {
    var local := Parse(value, docOrigin, utf8);
    local.Some? && local.value.kind.Local? && Exactly(Entry(Some(u), Some(value)), value, local.value, releases, utf8) == Some(u)
  }

  lemma {:induction false} AvailableAnswers(u: string, releases: map<string, Release>, selected: string, origin: string, utf8: string -> bool, docOrigin: string)
    requires IsVersion(selected)
    requires var r := Resolve(u, releases, selected, origin, utf8); r.Some? && r.value.Available?
    ensures Answers(u, Resolve(u, releases, selected, origin, utf8).value.local, releases, docOrigin, utf8)
  {
    var r := Resolve(u, releases, selected, origin, utf8).value;
    var p := r.parsed;
    var local := Parsed(Local, MajorOf(r.version), r.version, p.rawPath, p.path, p.search, p.hash);
    AvailableIs(u, releases, selected, origin, utf8);
    PublicParts(u, origin, utf8);
    LocalParses(r.version, p.rawPath, p.search, p.hash, docOrigin, utf8);
    AvailableBack(u, p, r.version, local, r.local, releases, utf8);
  }

  lemma {:induction false} AliasAnswers(u: string, version: string, target: string, releases: map<string, Release>, utf8: string -> bool, docOrigin: string)
    requires IsVersion(version) && Straight(target, utf8)
    requires version in releases && u in releases[version].aliases && releases[version].aliases[u] == target
    ensures Answers(u, LocalURL(version, target), releases, docOrigin, utf8)
  {
    LocalParses(version, target, "", "", docOrigin, utf8);
    assert target + "" + "" == target;
  }

  lemma {:induction false} ServedAnswers(u: string, releases: map<string, Release>, selected: string, origin: string, utf8: string -> bool, docOrigin: string)
    requires Good(releases, selected, utf8) && Served(u, releases, selected, origin, utf8).Some?
    ensures Answers(u, Served(u, releases, selected, origin, utf8).value, releases, docOrigin, utf8)
  {
    var r := Resolve(u, releases, selected, origin, utf8).value;
    if r.Alias? {
      AliasAnswers(u, r.version, r.path, releases, utf8, docOrigin);
    } else {
      AvailableAnswers(u, releases, selected, origin, utf8, docOrigin);
    }
  }

  /** A descriptor as a projection writes it: every entry is a URL and what it was served as. */
  ghost predicate Made(entries: seq<Entry>, releases: map<string, Release>, selected: string, origin: string, utf8: string -> bool) {
    forall i :: 0 <= i < |entries| ==>
      entries[i].original.Some? && entries[i].local.Some? && Served(entries[i].original.value, releases, selected, origin, utf8) == entries[i].local
  }

  /** What the first entry for a local URL was made from. */
  function FirstFor(entries: seq<Entry>, local: string): Option<string> {
    if entries == [] then None
    else if entries[0].local == Some(local) then entries[0].original
    else FirstFor(entries[1..], local)
  }

  lemma {:induction false} FirstAnswers(entries: seq<Entry>, answers: seq<Option<string>>, value: string)
    requires |answers| == |entries|
    requires forall i :: 0 <= i < |entries| ==> entries[i].original.Some? && answers[i] == if entries[i].local == Some(value) then entries[i].original else None
    ensures First(answers) == FirstFor(entries, value)
  {
    if entries != [] && entries[0].local != Some(value) {
      FirstAnswers(entries[1..], answers[1..], value);
    }
  }

  /** A served URL is turned back into what the first entry for it was made from. */
  lemma {:induction false} TurnedBack(value: string, releases: map<string, Release>, selected: string, origin: string, utf8: string -> bool, entries: seq<Entry>, docOrigin: string)
    requires Good(releases, selected, utf8) && Made(entries, releases, selected, origin, utf8) && FirstFor(entries, value).Some?
    ensures Canonical(value, entries, releases, docOrigin, utf8) == FirstFor(entries, value).value
  {
    var first := FirstIndex(entries, value);
    ServedAnswers(entries[first].original.value, releases, selected, origin, utf8, docOrigin);
    var local := Parse(value, docOrigin, utf8).value;
    var answers := ExactAnswers(entries, value, local, releases, utf8);
    forall i | 0 <= i < |entries| ensures answers[i] == if entries[i].local == Some(value) then entries[i].original else None {
      if entries[i].local == Some(value) {
        ServedAnswers(entries[i].original.value, releases, selected, origin, utf8, docOrigin);
        assert entries[i] == Entry(entries[i].original, Some(value));
      } else {
        NotThisOne(entries[i], value, local, releases, utf8);
      }
    }
    FirstAnswers(entries, answers, value);
  }

  lemma {:induction false} FirstIndex(entries: seq<Entry>, value: string) returns (i: nat)
    requires FirstFor(entries, value).Some?
    ensures i < |entries| && entries[i].local == Some(value) && entries[i].original == FirstFor(entries, value)
  {
    if entries[0].local == Some(value) {
      i := 0;
    } else {
      i := FirstIndex(entries[1..], value);
      i := i + 1;
    }
  }

  lemma {:induction false} FirstOf(entries: seq<Entry>, i: nat)
    requires i < |entries| && entries[i].local.Some? && forall k :: 0 <= k < |entries| ==> entries[k].original.Some?
    ensures FirstFor(entries, entries[i].local.value).Some?
    decreases i
  {
    if i > 0 && entries[0].local != entries[i].local {
      FirstOf(entries[1..], i - 1);
    }
  }

  /**
   A URL made local and turned back is the URL it was, byte for byte, exactly when the first entry for
   its local URL is its own.
   */
  lemma {:induction false} RoundTrip(u: string, releases: map<string, Release>, selected: string, origin: string, utf8: string -> bool, entries: seq<Entry>, docOrigin: string)
    requires Good(releases, selected, utf8) && Made(entries, releases, selected, origin, utf8)
    requires Served(u, releases, selected, origin, utf8).Some? && Entry(Some(u), Served(u, releases, selected, origin, utf8)) in entries
    ensures var local := Served(u, releases, selected, origin, utf8).value;
      Canonical(local, entries, releases, docOrigin, utf8) == u <==> FirstFor(entries, local) == Some(u)
  {
    var local := Served(u, releases, selected, origin, utf8).value;
    var i :| 0 <= i < |entries| && entries[i] == Entry(Some(u), Some(local));
    FirstOf(entries, i);
    TurnedBack(local, releases, selected, origin, utf8, entries, docOrigin);
  }

  /** No two URLs of the descriptor are served as one. */
  ghost predicate Apart(entries: seq<Entry>) {
    forall i, j :: 0 <= i < |entries| && 0 <= j < |entries| && entries[i].local == entries[j].local ==> entries[i].original == entries[j].original
  }

  /** Where no two URLs share a local URL, every one of them comes back. */
  lemma {:induction false} ApartComeBack(u: string, releases: map<string, Release>, selected: string, origin: string, utf8: string -> bool, entries: seq<Entry>, docOrigin: string)
    requires Good(releases, selected, utf8) && Made(entries, releases, selected, origin, utf8) && Apart(entries)
    requires Served(u, releases, selected, origin, utf8).Some? && Entry(Some(u), Served(u, releases, selected, origin, utf8)) in entries
    ensures Canonical(Served(u, releases, selected, origin, utf8).value, entries, releases, docOrigin, utf8) == u
  {
    var local := Served(u, releases, selected, origin, utf8).value;
    var i :| 0 <= i < |entries| && entries[i] == Entry(Some(u), Some(local));
    FirstOf(entries, i);
    var first := FirstIndex(entries, local);
    RoundTrip(u, releases, selected, origin, utf8, entries, docOrigin);
  }

  lemma {:induction false} AfterRollingIs(major: string, rest: string)
    requires major != "" && forall i :: 0 <= i < |major| ==> IsDigit(major[i])
    ensures AfterRolling(ROLLING_PREFIX + (major + "/" + rest)) == Some((major, rest))
  {
    var tail := major + "/" + rest;
    var head := ROLLING_PREFIX + tail;
    assert ROLLING_PREFIX <= head && head[|ROLLING_PREFIX|..] == tail;
    assert forall i :: 0 <= i < |major| ==> tail[i] == major[i];
    assert tail[|major|] == '/';
    DigitsEndIs(tail, 0, |major|);
    assert tail[..|major|] == major && tail[|major| + 1..] == rest;
  }

  lemma {:induction false} DigitsEndIs(s: string, i: nat, end: nat)
    requires i <= end < |s| && (forall k :: i <= k < end ==> IsDigit(s[k])) && !IsDigit(s[end])
    ensures DigitsEnd(s, i) == end
    decreases end - i
  {
    if i < end {
      DigitsEndIs(s, i + 1, end);
    }
  }

  lemma {:induction false} MajorIs(version: string)
    requires IsVersion(version)
    ensures MajorOf(version) != "" && forall i :: 0 <= i < |MajorOf(version)| ==> IsDigit(MajorOf(version)[i])
  {
    assert DigitsEnd(version, 0) > 0;
  }

  function RollingURL(version: string, rest: string): string {
    ROLLING_PREFIX + (MajorOf(version) + "/" + rest)
  }

  function ExactURL(version: string, rest: string): string {
    EXACT_PREFIX + (version + "/" + rest)
  }

  lemma {:induction false} RollingParsed(u: string, p: Parsed, version: string, releases: map<string, Release>, origin: string, utf8: string -> bool)
    requires Parse(u, origin, utf8) == Some(p) && p.kind.Rolling? && p.major == MajorOf(version) && p.major != ""
    requires FilesOf(releases, version).Some? && u !in releases[version].aliases && p.path in FilesOf(releases, version).value
    ensures Resolve(u, releases, version, origin, utf8) == Some(Available(p, version, LocalURL(version, p.rawPath + p.search + p.hash)))
  {
  }

  lemma {:induction false} ExactParsed(u: string, p: Parsed, version: string, releases: map<string, Release>, origin: string, utf8: string -> bool)
    requires Parse(u, origin, utf8) == Some(p) && p.kind.Exact? && p.version == version
    requires FilesOf(releases, version).Some? && u !in releases[version].aliases && p.path in FilesOf(releases, version).value
    ensures Resolve(u, releases, version, origin, utf8) == Some(Available(p, version, LocalURL(version, p.rawPath + p.search + p.hash)))
  {
  }

  lemma {:induction false} RollingParses(version: string, rawPath: string, search: string, hash: string, origin: string, utf8: string -> bool)
    requires IsVersion(version) && Movable(rawPath, search, hash) && DecodePath(rawPath, utf8).Some?
    ensures Parse(RollingURL(version, rawPath + search + hash), origin, utf8)
      == Some(Parsed(Rolling, MajorOf(version), "", rawPath, DecodePath(rawPath, utf8).value, search, hash))
  {
    MajorIs(version);
    AfterRollingIs(MajorOf(version), rawPath);
    PrefixFronts();
    FrontParses(ROLLING_PREFIX, MajorOf(version), rawPath, search, hash, Shape(Rolling, MajorOf(version), "", rawPath), origin, utf8);
  }

  /** The rolling URL of a bundled file is served as the local one. */
  lemma {:induction false} RollingServed(version: string, rawPath: string, search: string, hash: string, releases: map<string, Release>, origin: string, utf8: string -> bool)
    requires IsVersion(version) && Movable(rawPath, search, hash) && DecodePath(rawPath, utf8).Some?
    requires FilesOf(releases, version).Some? && DecodePath(rawPath, utf8).value in FilesOf(releases, version).value
    requires RollingURL(version, rawPath + search + hash) !in releases[version].aliases
    ensures Served(RollingURL(version, rawPath + search + hash), releases, version, origin, utf8) == Some(LocalURL(version, rawPath + search + hash))
  {
    MajorIs(version);
    RollingParses(version, rawPath, search, hash, origin, utf8);
    RollingParsed(RollingURL(version, rawPath + search + hash),
      Parsed(Rolling, MajorOf(version), "", rawPath, DecodePath(rawPath, utf8).value, search, hash), version, releases, origin, utf8);
  }

  lemma {:induction false} ExactShape(version: string, rawPath: string, origin: string)
    requires IsVersion(version)
    ensures ShapeOf(EXACT_PREFIX + (version + "/" + rawPath), origin) == Shape(Exact, MajorOf(version), version, rawPath)
  {
    var head := EXACT_PREFIX + (version + "/" + rawPath);
    AfterVersionIs(version, rawPath, EXACT_PREFIX);
    assert head[|EXACT_PREFIX|] == version[0] && IsDigit(version[0]);
    assert ROLLING_PREFIX == EXACT_PREFIX + "v" && ROLLING_PREFIX[|EXACT_PREFIX|] == 'v';
  }

  lemma {:induction false} ExactParses(version: string, rawPath: string, search: string, hash: string, origin: string, utf8: string -> bool)
    requires IsVersion(version) && Movable(rawPath, search, hash) && DecodePath(rawPath, utf8).Some?
    ensures Parse(ExactURL(version, rawPath + search + hash), origin, utf8)
      == Some(Parsed(Exact, MajorOf(version), version, rawPath, DecodePath(rawPath, utf8).value, search, hash))
  {
    VersionIsClean(version, 0, 0, false);
    ExactShape(version, rawPath, origin);
    PrefixFronts();
    FrontParses(EXACT_PREFIX, version, rawPath, search, hash, Shape(Exact, MajorOf(version), version, rawPath), origin, utf8);
  }

  /** So is the exact one of the selected release. */
  lemma {:induction false} ExactServed(version: string, rawPath: string, search: string, hash: string, releases: map<string, Release>, origin: string, utf8: string -> bool)
    requires IsVersion(version) && Movable(rawPath, search, hash) && DecodePath(rawPath, utf8).Some?
    requires FilesOf(releases, version).Some? && DecodePath(rawPath, utf8).value in FilesOf(releases, version).value
    requires ExactURL(version, rawPath + search + hash) !in releases[version].aliases
    ensures Served(ExactURL(version, rawPath + search + hash), releases, version, origin, utf8) == Some(LocalURL(version, rawPath + search + hash))
  {
    ExactParses(version, rawPath, search, hash, origin, utf8);
    ExactParsed(ExactURL(version, rawPath + search + hash),
      Parsed(Exact, MajorOf(version), version, rawPath, DecodePath(rawPath, utf8).value, search, hash), version, releases, origin, utf8);
  }

  /**
   Of the rolling and the exact URL of one bundled file, on one page, only the one written first comes
   back: they are served as one URL, and the other is turned into it.
   */
  lemma {:induction false} SharedLocal(version: string, rawPath: string, search: string, hash: string, releases: map<string, Release>, origin: string, utf8: string -> bool, docOrigin: string)
    requires Good(releases, version, utf8) && Movable(rawPath, search, hash) && DecodePath(rawPath, utf8).Some?
    requires FilesOf(releases, version).Some? && DecodePath(rawPath, utf8).value in FilesOf(releases, version).value
    requires RollingURL(version, rawPath + search + hash) !in releases[version].aliases
    requires ExactURL(version, rawPath + search + hash) !in releases[version].aliases
    ensures var rolling, exact := RollingURL(version, rawPath + search + hash), ExactURL(version, rawPath + search + hash);
      var local := LocalURL(version, rawPath + search + hash);
      var a, b := Entry(Some(rolling), Some(local)), Entry(Some(exact), Some(local));
      && rolling != exact && Made([a, b], releases, version, origin, utf8) && Made([b, a], releases, version, origin, utf8)
      && Canonical(local, [a, b], releases, docOrigin, utf8) == rolling
      && Canonical(local, [b, a], releases, docOrigin, utf8) == exact
  {
    var rest := rawPath + search + hash;
    var rolling, exact := RollingURL(version, rest), ExactURL(version, rest);
    RollingServed(version, rawPath, search, hash, releases, origin, utf8);
    ExactServed(version, rawPath, search, hash, releases, origin, utf8);
    var a, b := Entry(Some(rolling), Some(LocalURL(version, rest))), Entry(Some(exact), Some(LocalURL(version, rest)));
    TwoKinds(version, rest);
    TurnedBack(LocalURL(version, rest), releases, version, origin, utf8, [a, b], docOrigin);
    TurnedBack(LocalURL(version, rest), releases, version, origin, utf8, [b, a], docOrigin);
  }

  lemma {:induction false} TwoKinds(version: string, rest: string)
    requires IsVersion(version)
    ensures RollingURL(version, rest) != ExactURL(version, rest)
  {
    assert ExactURL(version, rest)[|EXACT_PREFIX|] == version[0] && IsDigit(version[0]);
    assert ROLLING_PREFIX == EXACT_PREFIX + "v" && ROLLING_PREFIX[|EXACT_PREFIX|] == 'v';
    assert RollingURL(version, rest)[|EXACT_PREFIX|] == 'v';
  }

  // ----- what a local URL is turned into -----

  predicate IsPublicURL(u: string, utf8: string -> bool) {
    var p := Parse(u, "", utf8);
    p.Some? && !p.value.kind.Local?
  }

  /** A public URL is one on every page, so it is never taken for a local one. */
  lemma {:induction false} PublicIsNotLocal(u: string, origin: string, utf8: string -> bool)
    requires IsPublicURL(u, utf8)
    ensures Parse(u, origin, utf8) == Parse(u, "", utf8)
  {
  }

  /** A public URL holds no control character. */
  lemma {:induction false} PublicIsPlain(u: string, utf8: string -> bool)
    requires IsPublicURL(u, utf8)
    ensures '\r' !in u
  {
    assert Clean(u);
  }

  lemma {:induction false} LocalTail(value: string, origin: string, utf8: string -> bool)
    requires Parse(value, origin, utf8).Some? && Parse(value, origin, utf8).value.kind.Local?
    ensures var p := Parse(value, origin, utf8).value;
      IsVersion(p.version) && Movable(p.rawPath, p.search, p.hash) && DecodePath(p.rawPath, utf8).Some?
  {
    var p, parts := Parse(value, origin, utf8).value, SplitURL(value);
    var lead := LocalHead(parts.0, origin);
    TailMoves(value, lead, p.rawPath, p.search, p.hash);
  }

  lemma {:induction false} LocalHead(head: string, origin: string) returns (lead: string)
    requires var shape := ShapeOf(head, origin); shape.Shape? && shape.kind.Local?
    ensures var shape := ShapeOf(head, origin); IsVersion(shape.version) && head == lead + shape.rawPath
  {
    var shape := ShapeOf(head, origin);
    if AfterVersion(head, LOCAL_PREFIX).Some? {
      lead := LOCAL_PREFIX + (shape.version + "/");
      AfterVersionWas(head, LOCAL_PREFIX);
      Regroup(LOCAL_PREFIX, shape.version, shape.rawPath);
    } else {
      lead := origin + (LOCAL_PREFIX + (shape.version + "/"));
      AfterVersionWas(head[|origin|..], LOCAL_PREFIX);
      Regroup(LOCAL_PREFIX, shape.version, shape.rawPath);
      Halved(head, origin, LOCAL_PREFIX + (shape.version + "/"), shape.rawPath);
    }
  }

  lemma {:induction false} Halved(head: string, origin: string, mid: string, rest: string)
    requires origin <= head && head[|origin|..] == mid + rest
    ensures head == origin + mid + rest
  {
  }

  lemma {:induction false} ExactIsPublic(version: string, rawPath: string, search: string, hash: string, utf8: string -> bool)
    requires IsVersion(version) && Movable(rawPath, search, hash) && DecodePath(rawPath, utf8).Some?
    ensures IsPublicURL(Spelled(Exact, "", version, rawPath + search + hash), utf8)
    ensures Spelled(Exact, "", version, rawPath + search + hash) == ExactURL(version, rawPath + search + hash)
  {
    ExactParses(version, rawPath, search, hash, "", utf8);
    SpelledParts(EXACT_PREFIX, version, rawPath + search + hash);
  }

  lemma {:induction false} RollingIsPublic(version: string, rawPath: string, search: string, hash: string, utf8: string -> bool)
    requires IsVersion(version) && Movable(rawPath, search, hash) && DecodePath(rawPath, utf8).Some?
    ensures IsPublicURL(Spelled(Rolling, MajorOf(version), "", rawPath + search + hash), utf8)
  {
    RollingParses(version, rawPath, search, hash, "", utf8);
    SpelledParts(ROLLING_PREFIX, MajorOf(version), rawPath + search + hash);
  }

  lemma {:induction false} SpelledParts(prefix: string, mid: string, rest: string)
    ensures prefix + mid + "/" + rest == prefix + (mid + "/" + rest)
  {
  }

  lemma {:induction false} FirstIsOne(answers: seq<Option<string>>) returns (i: nat)
    requires First(answers).Some?
    ensures i < |answers| && answers[i] == First(answers)
  {
    if answers[0].Some? {
      i := 0;
    } else {
      i := FirstIsOne(answers[1..]);
      i := i + 1;
    }
  }

  /** An exact answer is an alias of the file, or public. */
  lemma {:induction false} ExactlyIs(entry: Entry, value: string, local: Parsed, releases: map<string, Release>, utf8: string -> bool)
    requires Exactly(entry, value, local, releases, utf8).Some? && IsVersion(local.version)
    requires Movable(local.rawPath, local.search, local.hash) && DecodePath(local.rawPath, utf8).Some?
    ensures var c := Exactly(entry, value, local, releases, utf8).value;
      IsPublicURL(c, utf8) || (entry.original == Some(c) && IsAliasOf(releases, local, c))
  {
    RollingIsPublic(local.version, local.rawPath, local.search, local.hash, utf8);
  }

  lemma {:induction false} RoughlyIs(entry: Entry, local: Parsed, utf8: string -> bool)
    requires Roughly(entry, local, utf8).Some? && IsVersion(local.version)
    requires Movable(local.rawPath, local.search, local.hash) && DecodePath(local.rawPath, utf8).Some?
    ensures IsPublicURL(Roughly(entry, local, utf8).value, utf8)
  {
    RollingIsPublic(local.version, local.rawPath, local.search, local.hash, utf8);
    ExactIsPublic(local.version, local.rawPath, local.search, local.hash, utf8);
  }

  /** The entry that stands for this URL under an alias of its file. */
  predicate Aliased(entries: seq<Entry>, value: string, releases: map<string, Release>, local: Parsed, c: string) {
    Entry(Some(c), Some(value)) in entries && IsAliasOf(releases, local, c)
  }

  /** A local URL is turned into a public one, or into an alias the descriptor has for it. */
  lemma {:induction false} CanonicalIs(value: string, entries: seq<Entry>, releases: map<string, Release>, origin: string, utf8: string -> bool)
    requires Parse(value, origin, utf8).Some? && Parse(value, origin, utf8).value.kind.Local?
    ensures var c := Canonical(value, entries, releases, origin, utf8);
      IsPublicURL(c, utf8) || Aliased(entries, value, releases, Parse(value, origin, utf8).value, c)
  {
    var local := Parse(value, origin, utf8).value;
    var exact, rough := ExactAnswers(entries, value, local, releases, utf8), RoughAnswers(entries, local, utf8);
    LocalTail(value, origin, utf8);
    if First(exact).Some? {
      var i := FirstIsOne(exact);
      ExactlyIs(entries[i], value, local, releases, utf8);
      assert entries[i] in entries;
    } else if First(rough).Some? {
      var i := FirstIsOne(rough);
      RoughlyIs(entries[i], local, utf8);
    } else {
      ExactIsPublic(local.version, local.rawPath, local.search, local.hash, utf8);
    }
  }

  /** A local URL that is not itself served as another is never left as it is. */
  lemma {:induction false} LocalIsTurned(value: string, releases: map<string, Release>, selected: string, origin: string, utf8: string -> bool, entries: seq<Entry>, docOrigin: string)
    requires Made(entries, releases, selected, origin, utf8) && Served(value, releases, selected, origin, utf8) == None
    requires Parse(value, docOrigin, utf8).Some? && Parse(value, docOrigin, utf8).value.kind.Local?
    ensures Canonical(value, entries, releases, docOrigin, utf8) != value
  {
    var c := Canonical(value, entries, releases, docOrigin, utf8);
    CanonicalIs(value, entries, releases, docOrigin, utf8);
    if IsPublicURL(c, utf8) {
      PublicIsNotLocal(c, docOrigin, utf8);
    } else {
      var i :| 0 <= i < |entries| && entries[i] == Entry(Some(c), Some(value));
    }
  }

  /** No version or alias of the releases holds a carriage return. */
  ghost predicate Plain(releases: map<string, Release>, selected: string) {
    && '\r' !in selected
    && forall v, u :: v in releases && u in releases[v].aliases ==> '\r' !in u && '\r' !in releases[v].aliases[u]
  }

  lemma {:induction false} CanonicalIsPlain(value: string, entries: seq<Entry>, releases: map<string, Release>, selected: string, origin: string, utf8: string -> bool)
    requires Plain(releases, selected)
    ensures var c := Canonical(value, entries, releases, origin, utf8); c == value || '\r' !in c
  {
    var c, local := Canonical(value, entries, releases, origin, utf8), Parse(value, origin, utf8);
    if local.Some? && local.value.kind.Local? {
      CanonicalIs(value, entries, releases, origin, utf8);
      if IsPublicURL(c, utf8) {
        PublicIsPlain(c, utf8);
      }
    }
  }

  lemma {:induction false} ServedIsPlain(u: string, releases: map<string, Release>, selected: string, origin: string, utf8: string -> bool)
    requires Plain(releases, selected) && Served(u, releases, selected, origin, utf8).Some?
    ensures '\r' !in Served(u, releases, selected, origin, utf8).value
  {
    var r := Resolve(u, releases, selected, origin, utf8).value;
    if r.Available? {
      AvailableIs(u, releases, selected, origin, utf8);
      PublicParts(u, origin, utf8);
      if r.parsed.kind.Exact? {
        VersionIsClean(r.version, 0, 0, false);
      }
      MovableIsPlain(r.parsed.rawPath, r.parsed.search, r.parsed.hash);
      LocalIsPlain(r.version, r.parsed.rawPath + r.parsed.search + r.parsed.hash);
    } else {
      LocalIsPlain(r.version, r.path);
    }
  }

  lemma {:induction false} MovableIsPlain(rawPath: string, search: string, hash: string)
    requires Movable(rawPath, search, hash)
    ensures '\r' !in rawPath + search + hash
  {
    var rest := rawPath + search + hash;
    assert forall i :: 0 <= i < |rest| ==> !Control(rest[i]);
  }

  lemma {:induction false} LocalIsPlain(version: string, rest: string)
    requires '\r' !in version && '\r' !in rest
    ensures '\r' !in LocalURL(version, rest)
  {
    PrefixFronts();
    assert '\r' !in LOCAL_PREFIX;
    var url := LocalURL(version, rest);
    assert forall i :: 0 <= i < |url| ==> url[i] in LOCAL_PREFIX || url[i] in version || url[i] == '/' || url[i] in rest;
  }

  /** A local URL, unless it is an alias, is left alone by a projection and turned by the way back: into the exact URL. */
  lemma {:induction false} LocalIsLost(version: string, rawPath: string, search: string, hash: string, releases: map<string, Release>, selected: string, origin: string,
                                       utf8: string -> bool, docOrigin: string)
    requires IsVersion(version) && Movable(rawPath, search, hash) && DecodePath(rawPath, utf8).Some?
    requires selected in releases ==> LocalURL(version, rawPath + search + hash) !in releases[selected].aliases
    ensures var local := LocalURL(version, rawPath + search + hash);
      && Served(local, releases, selected, origin, utf8) == None
      && Canonical(local, [], releases, docOrigin, utf8) == ExactURL(version, rawPath + search + hash) != local
  {
    LocalParses(version, rawPath, search, hash, origin, utf8);
    WithoutEntries(version, rawPath, search, hash, releases, docOrigin, utf8);
  }

  /** Without a descriptor a local URL is turned into the exact one. */
  lemma {:induction false} WithoutEntries(version: string, rawPath: string, search: string, hash: string, releases: map<string, Release>, docOrigin: string, utf8: string -> bool)
    requires IsVersion(version) && Movable(rawPath, search, hash) && DecodePath(rawPath, utf8).Some?
    ensures var local := LocalURL(version, rawPath + search + hash);
      Canonical(local, [], releases, docOrigin, utf8) == ExactURL(version, rawPath + search + hash) != local
  {
    LocalParses(version, rawPath, search, hash, docOrigin, utf8);
    ExactIsPublic(version, rawPath, search, hash, utf8);
    PublicIsNotLocal(ExactURL(version, rawPath + search + hash), docOrigin, utf8);
  }

  /** Without an entry the rolling URL of a bundled file does not come back: the exact one does. */
  lemma {:induction false} Undescribed(version: string, rawPath: string, search: string, hash: string, releases: map<string, Release>, origin: string, utf8: string -> bool, docOrigin: string)
    requires IsVersion(version) && Movable(rawPath, search, hash) && DecodePath(rawPath, utf8).Some?
    requires FilesOf(releases, version).Some? && DecodePath(rawPath, utf8).value in FilesOf(releases, version).value
    requires RollingURL(version, rawPath + search + hash) !in releases[version].aliases
    ensures var rolling, exact := RollingURL(version, rawPath + search + hash), ExactURL(version, rawPath + search + hash);
      Served(rolling, releases, version, origin, utf8).Some? && exact != rolling
      && Canonical(Served(rolling, releases, version, origin, utf8).value, [], releases, docOrigin, utf8) == exact
  {
    RollingServed(version, rawPath, search, hash, releases, origin, utf8);
    WithoutEntries(version, rawPath, search, hash, releases, docOrigin, utf8);
    TwoKinds(version, rawPath + search + hash);
  }
}
