/**
 Following a stream of frames across reconnects (wireReadStream and the resume loop of wireStream,
 cmd/htmlclay/wire_cli.go; events as in section 9.2 of the HTML Living Standard). The resume point is the
 id of the last frame delivered, so whatever is cut off is sent again and nothing is skipped.
 */
module WireStream {
  import opened Sequences
  import opened Values

  // ----- lines -----

  predicate IsSpace(c: char) {
    || c == ' ' || ('\t' <= c <= '\r') || c == '\U{85}' || c == '\U{A0}' || c == '\U{1680}' || '\U{2000}' <= c <= '\U{200A}'
    || c == '\U{2028}' || c == '\U{2029}' || c == '\U{202F}' || c == '\U{205F}' || c == '\U{3000}'
  }

  function TrimSpace(s: string): string {
    if s == [] then []
    else if IsSpace(s[0]) then TrimSpace(s[1..])
    else if IsSpace(s[|s| - 1]) then TrimSpace(s[..|s| - 1])
    else s
  }

  predicate HasPrefix(s: string, prefix: string) {
    prefix <= s
  }

  function TrimPrefix(s: string, prefix: string): string {
    if prefix <= s then s[|prefix|..] else s
  }

  function JoinLines(lines: seq<string>): string {
    if lines == [] then [] else if |lines| == 1 then lines[0] else lines[0] + "\n" + JoinLines(lines[1..])
  }

  // ----- the reader -----

  /** What the reader holds between lines: the committed id, the announced one, the data so far, and what it delivered. */
  datatype Reader = Reader(id: string, pending: string, data: seq<string>, delivered: seq<string>)

  /** One line; `decodes` tells which payloads are JSON. */
  function Feed(r: Reader, line: string, decodes: string -> bool): Reader {
    if line == "" then
      if r.data == [] then r
      else if !decodes(JoinLines(r.data)) then r.(data := [])
      else Reader(r.pending, r.pending, [], r.delivered + [JoinLines(r.data)])
    else if HasPrefix(line, ":") then r
    else if HasPrefix(line, "id:") then r.(pending := TrimSpace(TrimPrefix(line, "id:")))
    else if HasPrefix(line, "data:") then r.(data := r.data + [TrimPrefix(TrimPrefix(line, "data:"), " ")])
    else r
  }

  function FeedAll(r: Reader, lines: seq<string>, decodes: string -> bool): Reader
    decreases |lines|
  {
    if lines == [] then r else FeedAll(Feed(r, lines[0], decodes), lines[1..], decodes)
  }

  /** wireReadStream over the lines of one connection. */
  method ReadStream(lines: seq<string>, lastID: string, decodes: string -> bool) returns (id: string, delivered: seq<string>)
    ensures var r := FeedAll(Reader(lastID, lastID, [], []), lines, decodes); id == r.id && delivered == r.delivered
  {
    id, delivered := lastID, [];
    var pending := lastID;
    var data: seq<string> := [];
    for i := 0 to |lines|
      invariant FeedAll(Reader(id, pending, data, delivered), lines[i..], decodes) == FeedAll(Reader(lastID, lastID, [], []), lines, decodes)
    {
      var line := lines[i];
      assert lines[i..][0] == line && lines[i..][1..] == lines[i + 1..];
      if line == "" {
        if |data| == 0 {
          continue;
        }
        var raw := JoinLines(data);
        data := [];
        if !decodes(raw) {
          continue;
        }
        delivered := delivered + [raw];
        id := pending;
      } else if HasPrefix(line, ":") {
      } else if HasPrefix(line, "id:") {
        pending := TrimSpace(TrimPrefix(line, "id:"));
      } else if HasPrefix(line, "data:") {
        data := data + [TrimPrefix(TrimPrefix(line, "data:"), " ")];
      }
    }
  }

  // ----- what a server sends -----

  datatype Frame = Frame(id: string, payload: seq<string>)

  function DataLines(payload: seq<string>): (r: seq<string>)
    ensures |r| == |payload|
  {
    seq(|payload|, i requires 0 <= i < |payload| => "data: " + payload[i])
  }

  function FrameLines(f: Frame): seq<string> {
    ["id: " + f.id] + DataLines(f.payload) + [""]
  }

  function Lines(frames: seq<Frame>): seq<string> {
    if frames == [] then [] else FrameLines(frames[0]) + Lines(frames[1..])
  }

  function Payloads(frames: seq<Frame>): (r: seq<string>)
    ensures |r| == |frames|
  {
    seq(|frames|, i requires 0 <= i < |frames| => JoinLines(frames[i].payload))
  }

  /** The id is plain text, and there is a payload, which is JSON. */
  ghost predicate Sound(f: Frame, decodes: string -> bool) {
    f.id != "" && !IsSpace(f.id[0]) && !IsSpace(f.id[|f.id| - 1]) && f.payload != [] && decodes(JoinLines(f.payload))
  }

  /** Every frame the server ever sends, each under an id of its own. */
  ghost predicate History(frames: seq<Frame>, decodes: string -> bool) {
    && (forall i :: 0 <= i < |frames| ==> Sound(frames[i], decodes))
    && forall i, j :: 0 <= i < j < |frames| ==> frames[i].id != frames[j].id
  }

  // ----- reading a frame -----

  lemma {:induction false} FeedConcat(r: Reader, a: seq<string>, b: seq<string>, decodes: string -> bool)
    ensures FeedAll(r, a + b, decodes) == FeedAll(FeedAll(r, a, decodes), b, decodes)
    decreases |a|
  {
    if a == [] {
      assert a + b == b;
    } else {
      assert (a + b)[0] == a[0] && (a + b)[1..] == a[1..] + b;
      FeedConcat(Feed(r, a[0], decodes), a[1..], b, decodes);
    }
  }

  lemma {:induction false} FeedId(r: Reader, id: string, decodes: string -> bool)
    requires id != "" && !IsSpace(id[0]) && !IsSpace(id[|id| - 1])
    ensures Feed(r, "id: " + id, decodes) == r.(pending := id)
  {
    var line := "id: " + id;
    assert line[0] == 'i' && "id:" <= line && line[3..] == " " + id;
    assert (" " + id)[0] == ' ' && (" " + id)[1..] == id;
    assert TrimSpace(id) == id;
  }

  lemma {:induction false} FeedData(r: Reader, text: string, decodes: string -> bool)
    ensures Feed(r, "data: " + text, decodes) == r.(data := r.data + [text])
  {
    var line := "data: " + text;
    assert line[0] == 'd' && "data:" <= line && line[5..] == " " + text;
    assert (" " + text)[..1] == " " && (" " + text)[1..] == text;
  }

  lemma {:induction false} FeedPayload(r: Reader, payload: seq<string>, k: nat, decodes: string -> bool)
    requires k <= |payload|
    ensures FeedAll(r, DataLines(payload)[..k], decodes) == r.(data := r.data + payload[..k])
  {
    if k > 0 {
      var init, last := DataLines(payload)[..k - 1], DataLines(payload)[k - 1];
      assert DataLines(payload)[..k] == init + [last];
      FeedPayload(r, payload, k - 1, decodes);
      FeedConcat(r, init, [last], decodes);
      FeedData(FeedAll(r, init, decodes), payload[k - 1], decodes);
      assert payload[..k] == payload[..k - 1] + [payload[k - 1]];
    }
  }

  /** A whole frame is delivered and its id committed. */
  lemma {:induction false} FeedFrame(r: Reader, f: Frame, decodes: string -> bool)
    requires Sound(f, decodes) && r.data == []
    ensures FeedAll(r, FrameLines(f), decodes) == Reader(f.id, f.id, [], r.delivered + [JoinLines(f.payload)])
  {
    var idLine, data := ["id: " + f.id], DataLines(f.payload);
    FeedId(r, f.id, decodes);
    var announced := r.(pending := f.id);
    FeedConcat(r, idLine + data, [""], decodes);
    FeedConcat(r, idLine, data, decodes);
    FeedPayload(announced, f.payload, |f.payload|, decodes);
    assert data[..|data|] == data && f.payload[..|f.payload|] == f.payload && [] + f.payload == f.payload;
  }

  /** A frame cut off before its end delivers nothing and commits nothing. */
  lemma {:induction false} FeedCutFrame(r: Reader, f: Frame, k: nat, decodes: string -> bool)
    requires Sound(f, decodes) && r.data == [] && k < |FrameLines(f)|
    ensures var cut := FeedAll(r, FrameLines(f)[..k], decodes); cut.id == r.id && cut.delivered == r.delivered
  {
    if k > 0 {
      var idLine, data := ["id: " + f.id], DataLines(f.payload);
      assert FrameLines(f)[..k] == idLine + data[..k - 1];
      FeedConcat(r, idLine, data[..k - 1], decodes);
      FeedId(r, f.id, decodes);
      FeedPayload(r.(pending := f.id), f.payload, k - 1, decodes);
    }
  }

  /** Some frames whole, then perhaps part of one: the whole ones are delivered, the last one's id is committed. */
  lemma {:induction false} FeedFrames(r: Reader, frames: seq<Frame>, cut: nat, decodes: string -> bool) returns (n: nat)
    requires (forall i :: 0 <= i < |frames| ==> Sound(frames[i], decodes)) && r.data == [] && cut <= |Lines(frames)|
    ensures n <= |frames|
    ensures var out := FeedAll(r, Lines(frames)[..cut], decodes);
      out.delivered == r.delivered + Payloads(frames[..n]) && out.id == if n == 0 then r.id else frames[n - 1].id
    decreases |frames|
  {
    if frames == [] || cut < |FrameLines(frames[0])| {
      n := 0;
      if frames != [] {
        assert Lines(frames)[..cut] == FrameLines(frames[0])[..cut];
        FeedCutFrame(r, frames[0], cut, decodes);
      }
      assert r.delivered + Payloads(frames[..0]) == r.delivered;
    } else {
      var first, rest := FrameLines(frames[0]), frames[1..];
      assert Lines(frames)[..cut] == first + Lines(rest)[..cut - |first|];
      FeedConcat(r, first, Lines(rest)[..cut - |first|], decodes);
      FeedFrame(r, frames[0], decodes);
      var more := FeedFrames(FeedAll(r, first, decodes), rest, cut - |first|, decodes);
      n := more + 1;
      assert frames[..n] == [frames[0]] + rest[..more];
      assert Payloads(frames[..n]) == [JoinLines(frames[0].payload)] + Payloads(rest[..more]);
      Assoc(r.delivered, [JoinLines(frames[0].payload)], Payloads(rest[..more]));
    }
  }

  // ----- one connection -----

  function NoComments(lines: seq<string>): seq<string> {
    if lines == [] then [] else (if HasPrefix(lines[0], ":") then [] else [lines[0]]) + NoComments(lines[1..])
  }

  lemma {:induction false} CommentsAreNothing(r: Reader, lines: seq<string>, decodes: string -> bool)
    ensures FeedAll(r, lines, decodes) == FeedAll(r, NoComments(lines), decodes)
    decreases |lines|
  {
    if lines != [] {
      CommentsAreNothing(Feed(r, lines[0], decodes), lines[1..], decodes);
      if HasPrefix(lines[0], ":") {
        assert NoComments(lines) == NoComments(lines[1..]);
        assert lines[0][0] == ':';
      } else {
        assert NoComments(lines)[1..] == NoComments(lines[1..]);
      }
    }
  }

  /**
   The lines of one connection: the frames from `from` on, cut anywhere, with keepalive comments in
   between, and at the very end perhaps a torn line.
   */
  ghost predicate Carries(lines: seq<string>, frames: seq<Frame>, from: nat, cut: nat) {
    && from <= |frames| && cut <= |Lines(frames[from..])|
    && (|| NoComments(lines) == Lines(frames[from..])[..cut]
        || (lines != [] && lines[|lines| - 1] != "" && NoComments(lines[..|lines| - 1]) == Lines(frames[from..])[..cut]))
  }

  /** A connection delivers a stretch of frames and is left at the id of the last one. */
  ghost predicate Delivers(out: Reader, lastID: string, frames: seq<Frame>, from: nat, n: nat) {
    from + n <= |frames| && out.delivered == Payloads(frames[from..from + n]) && out.id == if n == 0 then lastID else frames[from + n - 1].id
  }

  lemma {:induction false} BodyReads(body: seq<string>, lastID: string, frames: seq<Frame>, from: nat, cut: nat, decodes: string -> bool) returns (n: nat)
    requires History(frames, decodes) && from <= |frames| && cut <= |Lines(frames[from..])| && NoComments(body) == Lines(frames[from..])[..cut]
    ensures Delivers(FeedAll(Reader(lastID, lastID, [], []), body, decodes), lastID, frames, from, n)
  {
    var r := Reader(lastID, lastID, [], []);
    CommentsAreNothing(r, body, decodes);
    n := FeedFrames(r, frames[from..], cut, decodes);
    assert frames[from..][..n] == frames[from..from + n];
    assert [] + Payloads(frames[from..from + n]) == Payloads(frames[from..from + n]);
  }

  /** A line that is not empty delivers nothing. */
  lemma {:induction false} TornIsNothing(r: Reader, body: seq<string>, torn: string, decodes: string -> bool)
    requires torn != ""
    ensures var whole, out := FeedAll(r, body, decodes), FeedAll(r, body + [torn], decodes); out.id == whole.id && out.delivered == whole.delivered
  {
    FeedConcat(r, body, [torn], decodes);
  }

  lemma {:induction false} ConnectionReads(lines: seq<string>, lastID: string, frames: seq<Frame>, from: nat, cut: nat, decodes: string -> bool) returns (n: nat)
    requires History(frames, decodes) && Carries(lines, frames, from, cut)
    ensures Delivers(FeedAll(Reader(lastID, lastID, [], []), lines, decodes), lastID, frames, from, n)
  {
    if NoComments(lines) == Lines(frames[from..])[..cut] {
      n := BodyReads(lines, lastID, frames, from, cut, decodes);
    } else {
      var body, torn := lines[..|lines| - 1], lines[|lines| - 1];
      assert lines == body + [torn];
      n := BodyReads(body, lastID, frames, from, cut, decodes);
      TornIsNothing(Reader(lastID, lastID, [], []), body, torn, decodes);
    }
  }

  // ----- the resume loop -----

  /** An attempt fails, or is served. */
  datatype Attempt = Failed | Served(lines: seq<string>)

  /**
   What is asked of a server: a subscription with no resume id starts anywhere, one with the id of a
   frame starts with the frame after it.
   */
  ghost predicate Replays(server: (string, nat) -> Attempt, frames: seq<Frame>) {
    forall id, k {:trigger server(id, k)} :: server(id, k).Served? ==>
      exists from: nat, cut: nat :: Carries(server(id, k).lines, frames, from, cut) && StartsRight(frames, id, from)
  }

  ghost predicate StartsRight(frames: seq<Frame>, id: string, from: nat) {
    id != "" && (exists i :: 0 <= i < |frames| && frames[i].id == id) ==> 0 < from <= |frames| && frames[from - 1].id == id
  }

  /** Everything between the first and the last frame delivered was delivered, once and in order. */
  ghost predicate Gapless(frames: seq<Frame>, delivered: seq<string>, lastID: string) {
    exists p: nat, q: nat :: IsStretch(frames, delivered, lastID, p, q)
  }

  ghost predicate IsStretch(frames: seq<Frame>, delivered: seq<string>, lastID: string, p: nat, q: nat) {
    p <= q <= |frames| && delivered == Payloads(frames[p..q]) && lastID == if p == q then "" else frames[q - 1].id
  }

  /** wireStream: as many attempts as the caller lets it make; it gives up only when the very first one fails. */
  method Follow(server: (string, nat) -> Attempt, attempts: nat, decodes: string -> bool, ghost frames: seq<Frame>)
    returns (delivered: seq<string>, lastID: string)
    requires History(frames, decodes) && Replays(server, frames)
    ensures Gapless(frames, delivered, lastID)
  {
    delivered, lastID := [], "";
    var attached := false;
    assert IsStretch(frames, delivered, lastID, 0, 0);
    for k := 0 to attempts
      invariant Gapless(frames, delivered, lastID)
    {
      var attempt := server(lastID, k);
      if attempt.Failed? {
        if !attached {
          return;
        }
      } else {
        attached := true;
        var id, more := ReadStream(attempt.lines, lastID, decodes);
        NextConnection(attempt.lines, lastID, frames, delivered, decodes);
        delivered, lastID := delivered + more, id;
      }
    }
  }

  lemma {:induction false} NextConnection(lines: seq<string>, lastID: string, frames: seq<Frame>, delivered: seq<string>, decodes: string -> bool)
    requires History(frames, decodes) && Gapless(frames, delivered, lastID)
    requires exists from: nat, cut: nat :: Carries(lines, frames, from, cut) && StartsRight(frames, lastID, from)
    ensures var out := FeedAll(Reader(lastID, lastID, [], []), lines, decodes); Gapless(frames, delivered + out.delivered, out.id)
  {
    var from: nat, cut: nat :| Carries(lines, frames, from, cut) && StartsRight(frames, lastID, from);
    var p: nat, q: nat :| IsStretch(frames, delivered, lastID, p, q);
    var n := ConnectionReads(lines, lastID, frames, from, cut, decodes);
    var out := FeedAll(Reader(lastID, lastID, [], []), lines, decodes);
    if p == q {
      assert IsStretch(frames, [] + out.delivered, out.id, from, from + n);
    } else {
      ResumesAt(frames, lastID, q, from, decodes);
      StretchOn(frames, delivered, out, lastID, p, q, n);
    }
  }

  /** The one frame the resume id names is the last one delivered. */
  lemma {:induction false} ResumesAt(frames: seq<Frame>, lastID: string, q: nat, from: nat, decodes: string -> bool)
    requires History(frames, decodes) && 0 < q <= |frames| && lastID == frames[q - 1].id && StartsRight(frames, lastID, from)
    ensures from == q
  {
    assert Sound(frames[q - 1], decodes);
  }

  lemma {:induction false} StretchOn(frames: seq<Frame>, delivered: seq<string>, out: Reader, lastID: string, p: nat, q: nat, n: nat)
    requires p < q && IsStretch(frames, delivered, lastID, p, q) && Delivers(out, lastID, frames, q, n)
    ensures IsStretch(frames, delivered + out.delivered, out.id, p, q + n)
  {
    assert frames[p..q] + frames[q..q + n] == frames[p..q + n];
  }
}
