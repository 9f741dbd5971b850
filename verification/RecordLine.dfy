/**
 Reading one output line through a fixed buffer (readRecordLine of internal/helper/jsonl.go). The reader
 agrees with splitting the whole input at line feeds, for every input, just when the buffer size does not
 divide the limit plus one.
 */
module RecordLine {
  import opened Sequences

  type Byte = bv8

  const LF: Byte := 10
  const CR: Byte := 13
  const BUFFER := 0x1_0000
  const MAX_RECORD := 0x8_0000

  /** How the input ends. */
  datatype End = Eof | Failure

  datatype Outcome = Line(bytes: seq<Byte>) | TooLarge | EndOfInput | Broken

  // ----- the simple reading -----

  /** Where the first line feed is, the length when there is none. */
  function FirstLf(s: seq<Byte>): (i: nat)
    ensures i <= |s| && (forall k :: 0 <= k < i ==> s[k] != LF) && (i < |s| ==> s[i] == LF)
  {
    if s == [] || s[0] == LF then 0
    else
      assert forall k :: 0 < k < |s| ==> s[k] == s[1..][k - 1];
      FirstLf(s[1..]) + 1
  }

  function Stripped(line: seq<Byte>): seq<Byte> {
    if line != [] && line[|line| - 1] == CR then line[..|line| - 1] else line
  }

  /** The text up to the first line feed, without the carriage return before it. */
  function Simple(s: seq<Byte>, max: nat, end: End): Outcome {
    var i := FirstLf(s);
    if i < |s| then if |Stripped(s[..i])| > max then TooLarge else Line(Stripped(s[..i]))
    else if |s| > max then TooLarge
    else if end.Failure? then Broken
    else if s == [] then EndOfInput
    else Line(s)
  }

  /** `line` is what stands before `left`, or all there is. */
  ghost predicate Splits(s: seq<Byte>, line: seq<Byte>, left: seq<Byte>) {
    && LF !in line
    && (|| (s == line + [LF] + left && (line == [] || line[|line| - 1] != CR))
        || s == line + [CR, LF] + left
        || (s == line && left == []))
  }

  predicate Divides(d: nat, n: nat)
    requires d > 0
  {
    n == 0 || (n >= d && Divides(d, n - d))
  }

  /** A full buffer without a line feed is held against the limit as it is, whatever follows. */
  predicate Overshoots(s: seq<Byte>, size: nat, max: nat)
    requires size > 0
  {
    Divides(size, max + 1) && |s| > max && FirstLf(s) > max
  }

  function Actual(s: seq<Byte>, size: nat, max: nat, end: End): Outcome
    requires size > 0
  {
    if Overshoots(s, size, max) then TooLarge else Simple(s, max, end)
  }

  // ----- the buffered reading -----

  /** What a slice of the buffer ends with: a line feed, no room, or the input. */
  datatype Status = Found | Full | Ended

  /** bufio's ReadSlice. The end of input may or may not show while a full buffer is returned. */
  method ReadSlice(rest: seq<Byte>, size: nat) returns (chunk: seq<Byte>, status: Status)
    requires size > 0
    ensures IsSlice(rest, size, chunk, status)
  {
    var i := FirstLf(rest);
    if i < size && i < |rest| {
      return rest[..i + 1], Found;
    }
    if |rest| < size {
      return rest, Ended;
    }
    if |rest| == size {
      var seen: bool := *;
      if seen {
        return rest, Ended;
      }
    }
    return rest[..size], Full;
  }

  ghost predicate IsSlice(rest: seq<Byte>, size: nat, chunk: seq<Byte>, status: Status) {
    match status
    case Found => FirstLf(rest) < |rest| && FirstLf(rest) < size && chunk == rest[..FirstLf(rest) + 1]
    case Full => |rest| >= size && FirstLf(rest) >= size && chunk == rest[..size]
    case Ended => FirstLf(rest) == |rest| <= size && chunk == rest
  }

  method ReadRecordLine(s: seq<Byte>, size: nat, max: nat, end: End) returns (res: Outcome, left: seq<Byte>)
    requires size > 0
    ensures res == Actual(s, size, max, end)
    ensures res.Line? ==> Splits(s, res.bytes, left)
  {
    var raw: seq<Byte> := [];
    var rest := s;
    while true
      invariant Reading(s, raw, rest, size, max)
      decreases |rest|
    {
      var chunk, status := ReadSlice(rest, size);
      if !status.Full? {
        SliceIsClean(rest, size, chunk, status);
        res := Judge(raw, chunk, status, max, end);
        LastSlice(s, raw, rest, chunk, status, size, max, end);
        return res, rest[|chunk|..];
      }
      if |raw| + |chunk| > max {
        FullIsTooLarge(s, raw, rest, size, max, end);
        return TooLarge, [];
      }
      Onward(s, raw, rest, chunk, size, max);
      raw, rest := raw + chunk, rest[|chunk|..];
    }
  }

  lemma {:induction false} SliceIsClean(rest: seq<Byte>, size: nat, chunk: seq<Byte>, status: Status)
    requires IsSlice(rest, size, chunk, status) && !status.Full?
    ensures |chunk| <= |rest| && if status.Found? then chunk != [] && chunk[|chunk| - 1] == LF && LF !in chunk[..|chunk| - 1] else LF !in chunk
  {
  }

  /** `raw` has been taken in whole buffers, within the limit. */
  ghost predicate Reading(s: seq<Byte>, raw: seq<Byte>, rest: seq<Byte>, size: nat, max: nat)
    requires size > 0
  {
    s == raw + rest && |raw| <= max && Divides(size, |raw|) && LF !in raw
  }

  lemma {:induction false} Onward(s: seq<Byte>, raw: seq<Byte>, rest: seq<Byte>, chunk: seq<Byte>, size: nat, max: nat)
    requires size > 0 && Reading(s, raw, rest, size, max) && IsSlice(rest, size, chunk, Full) && |raw| + |chunk| <= max
    ensures |chunk| == size && Reading(s, raw + chunk, rest[|chunk|..], size, max)
  {
    assert rest == chunk + rest[|chunk|..];
    Assoc(raw, chunk, rest[|chunk|..]);
    assert forall k :: 0 <= k < |chunk| ==> chunk[k] == rest[k];
  }

  /** What becomes of the line once its last slice is in. */
  method Judge(raw: seq<Byte>, chunk: seq<Byte>, status: Status, max: nat, end: End) returns (res: Outcome)
    requires !status.Full? && LF !in raw
    requires if status.Found? then chunk != [] && chunk[|chunk| - 1] == LF && LF !in chunk[..|chunk| - 1] else LF !in chunk
    ensures res == Judged(raw + chunk, status, max, end)
  {
    var hasNewline := |chunk| > 0 && chunk[|chunk| - 1] == LF;
    var all := raw + chunk;
    var lineBytes := |raw| + |chunk|;
    if hasNewline {
      lineBytes := lineBytes - 1;
      if lineBytes > 0 {
        var last := if |chunk| > 1 then chunk[|chunk| - 2] else raw[|raw| - 1];
        if last == CR {
          lineBytes := lineBytes - 1;
        }
      }
    }
    if lineBytes > max {
      return TooLarge;
    }
    var line := all;
    if hasNewline {
      line := line[..|line| - 1];
      if |line| > 0 && line[|line| - 1] == CR {
        line := line[..|line| - 1];
      }
    }
    if status.Ended? && end.Failure? {
      return Broken;
    }
    if status.Ended? && |line| == 0 {
      return EndOfInput;
    }
    return Line(line);
  }

  function Judged(all: seq<Byte>, status: Status, max: nat, end: End): Outcome {
    if status.Found? && all != [] then
      var line := Stripped(all[..|all| - 1]);
      if |line| > max then TooLarge else Line(line)
    else if |all| > max then TooLarge
    else if end.Failure? then Broken
    else if all == [] then EndOfInput
    else Line(all)
  }

  lemma {:induction false} FirstLfIs(s: seq<Byte>, j: nat)
    requires j <= |s| && (forall k :: 0 <= k < j ==> s[k] != LF) && (j < |s| ==> s[j] == LF)
    ensures FirstLf(s) == j
  {
    if j > 0 {
      FirstLfIs(s[1..], j - 1);
    }
  }

  lemma {:induction false} RawThenRest(raw: seq<Byte>, rest: seq<Byte>)
    requires LF !in raw
    ensures FirstLf(raw + rest) == |raw| + FirstLf(rest)
  {
    FirstLfIs(raw + rest, |raw| + FirstLf(rest));
  }

  /** The next multiple is a whole buffer away. */
  lemma {:induction false} NextMultiple(n: nat, m: nat, size: nat)
    requires size > 0 && Divides(size, n) && Divides(size, m) && n < m
    ensures n + size <= m
  {
    if n > 0 {
      NextMultiple(n - size, m - size, size);
    }
  }

  /** The one multiple of the buffer size past the limit that still fits a line with its carriage return. */
  lemma {:induction false} FullIsTooLarge(s: seq<Byte>, raw: seq<Byte>, rest: seq<Byte>, size: nat, max: nat, end: End)
    requires size > 0 && Reading(s, raw, rest, size, max) && max < |raw| + size
    requires FirstLf(rest) >= size && |rest| >= size
    ensures Actual(s, size, max, end) == TooLarge
  {
    RawThenRest(raw, rest);
    assert max + 1 == |raw| + size ==> Divides(size, max + 1);
  }

  lemma {:induction false} LastSlice(s: seq<Byte>, raw: seq<Byte>, rest: seq<Byte>, chunk: seq<Byte>, status: Status, size: nat, max: nat, end: End)
    requires size > 0 && Reading(s, raw, rest, size, max)
    requires IsSlice(rest, size, chunk, status) && !status.Full?
    ensures Judged(raw + chunk, status, max, end) == Actual(s, size, max, end)
    ensures Judged(raw + chunk, status, max, end).Line? ==> Splits(s, Judged(raw + chunk, status, max, end).bytes, rest[|chunk|..])
  {
    RawThenRest(raw, rest);
    if status.Found? {
      var i := FirstLf(rest);
      var head, more := rest[..i], rest[i + 1..];
      Pieces(raw, rest, i);
      if Overshoots(s, size, max) {
        NextMultiple(|raw|, max + 1, size);
      }
      LastFound(s, raw + head, more, max, end);
    } else {
      LastEnded(s, raw, rest, size, max, end);
    }
  }

  lemma {:induction false} Pieces(raw: seq<Byte>, rest: seq<Byte>, i: nat)
    requires i < |rest| && rest[i] == LF
    ensures raw + rest == (raw + rest[..i]) + [LF] + rest[i + 1..] && raw + rest[..i + 1] == (raw + rest[..i]) + [LF]
  {
    assert rest[..i + 1] == rest[..i] + [LF];
    Assoc(raw, rest[..i], [LF]);
  }

  lemma {:induction false} LastFound(s: seq<Byte>, line: seq<Byte>, more: seq<Byte>, max: nat, end: End)
    requires s == line + [LF] + more && FirstLf(s) == |line|
    ensures var out := Judged(line + [LF], Found, max, end);
      out == Simple(s, max, end) && (out.Line? ==> Splits(s, out.bytes, more))
  {
    assert (line + [LF])[..|line|] == line && s[..|line|] == line;
    assert forall k :: 0 <= k < |line| ==> s[k] == line[k];
    Parted(line, more);
  }

  lemma {:induction false} LastEnded(s: seq<Byte>, raw: seq<Byte>, rest: seq<Byte>, size: nat, max: nat, end: End)
    requires s == raw + rest && size > 0 && FirstLf(rest) == |rest| && FirstLf(s) == |s|
    ensures var out := Judged(raw + rest, Ended, max, end);
      out == Actual(s, size, max, end) && (out.Line? ==> Splits(s, out.bytes, rest[|rest|..]))
  {
    assert rest[|rest|..] == [];
  }

  lemma {:induction false} Parted(line: seq<Byte>, more: seq<Byte>)
    requires LF !in line
    ensures Splits(line + [LF] + more, Stripped(line), more)
  {
    if line != [] && line[|line| - 1] == CR {
      var init := line[..|line| - 1];
      assert line == init + [CR];
      Regroup(init, more);
    }
  }

  lemma {:induction false} Regroup(init: seq<Byte>, more: seq<Byte>)
    ensures init + [CR] + [LF] + more == init + [CR, LF] + more
  {
    assert [CR] + [LF] == [CR, LF];
    assert init + [CR] + [LF] == init + ([CR] + [LF]);
  }

  // ----- what that amounts to -----

  lemma {:induction false} Filled(n: nat)
    ensures var s := seq(n, _ => 97 as Byte) + [CR, LF]; FirstLf(s) == n + 1 && Stripped(s[..n + 1]) == seq(n, _ => 97 as Byte)
  {
    var s := seq(n, _ => 97 as Byte) + [CR, LF];
    assert s[n] == CR && s[n + 1] == LF;
    assert s[..n + 1] == seq(n, _ => 97 as Byte) + [CR];
  }

  /** The two readings agree on every input exactly when the buffer size does not divide the limit plus one. */
  lemma {:induction false} AgreeExactly(size: nat, max: nat)
    requires size > 0
    ensures (forall s, end :: Actual(s, size, max, end) == Simple(s, max, end)) <==> !Divides(size, max + 1)
  {
    if Divides(size, max + 1) {
      Filled(max);
      var s := seq(max, _ => 97 as Byte) + [CR, LF];
      assert Actual(s, size, max, Eof) == TooLarge && Simple(s, max, Eof).Line?;
    }
  }

  /** With the sizes in use a line of exactly the limit passes with either line ending. */
  lemma {:induction false} SizesInUseAgree(s: seq<Byte>, end: End)
    ensures Actual(s, BUFFER, MAX_RECORD, end) == Simple(s, MAX_RECORD, end)
  {
    assert !Divides(BUFFER, 1);
    assert !Divides(BUFFER, 1 + 2 * BUFFER);
    assert !Divides(BUFFER, 1 + 4 * BUFFER);
    assert !Divides(BUFFER, 1 + 6 * BUFFER);
    AgreeExactly(BUFFER, MAX_RECORD);
  }
}
