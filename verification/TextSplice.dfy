/** Replacing ranges of a text, back to front, so that no replacement shifts a range still to come. */
module TextSplice {

  datatype Edit<T> = Edit(start: nat, end: nat, text: seq<T>)

  /** The edits lie between `from` and `upto`, one after the other. */
  predicate Ascending<T>(edits: seq<Edit<T>>, from: nat, upto: nat) {
    if edits == [] then from <= upto
    else from <= edits[0].start <= edits[0].end && Ascending(edits[1..], edits[0].end, upto)
  }

  lemma {:induction false} AscendingWithin<T>(edits: seq<Edit<T>>, from: nat, upto: nat)
    requires Ascending(edits, from, upto)
    ensures from <= upto
    ensures edits != [] ==> edits[0].end <= upto
  {
    if edits != [] {
      AscendingWithin(edits[1..], edits[0].end, upto);
    }
  }

  lemma {:induction false} AscendingFromPairs<T>(edits: seq<Edit<T>>, from: nat, upto: nat)
    requires from <= upto
    requires forall i :: 0 <= i < |edits| ==> from <= edits[i].start <= edits[i].end <= upto
    requires forall i, j :: 0 <= i < j < |edits| ==> edits[i].end <= edits[j].start
    ensures Ascending(edits, from, upto)
  {
    if edits != [] {
      AscendingFromPairs(edits[1..], edits[0].end, upto);
    }
  }

  lemma {:induction false} AscendingAt<T>(edits: seq<Edit<T>>, from: nat, upto: nat, k: nat)
    requires Ascending(edits, from, upto) && k < |edits|
    ensures edits[k].end <= if k + 1 < |edits| then edits[k + 1].start else upto
    decreases |edits|
  {
    if k > 0 {
      AscendingAt(edits[1..], edits[0].end, upto, k - 1);
    } else {
      AscendingWithin(edits[1..], edits[0].end, upto);
    }
  }

  /** `src` from `from` on, read left to right, with every edit's range replaced by its text. */
  ghost function Patched<T>(src: seq<T>, from: nat, edits: seq<Edit<T>>): seq<T>
    requires Ascending(edits, from, |src|)
    decreases |edits|
  {
    AscendingWithin(edits, from, |src|);
    if edits == [] then src[from..]
    else src[from..edits[0].start] + edits[0].text + Patched(src, edits[0].end, edits[1..])
  }

  function ReplaceAt<T>(text: seq<T>, e: Edit<T>): seq<T>
    requires e.start <= e.end <= |text|
  {
    text[..e.start] + e.text + text[e.end..]
  }

  /** Nothing before the first edit changes. */
  lemma {:induction false} PatchedFrom<T>(src: seq<T>, from: nat, at: nat, edits: seq<Edit<T>>)
    requires from <= at && Ascending(edits, at, |src|)
    ensures at <= |src| && Ascending(edits, from, |src|)
    ensures Patched(src, from, edits) == src[from..at] + Patched(src, at, edits)
  {
    AscendingWithin(edits, at, |src|);
    if edits == [] {
      assert src[from..] == src[from..at] + src[at..];
    } else {
      var rest := Patched(src, edits[0].end, edits[1..]);
      assert src[from..edits[0].start] == src[from..at] + src[at..edits[0].start];
      Regroup(src[from..at], src[at..edits[0].start], edits[0].text, rest);
    }
  }

  lemma {:induction false} Regroup<T>(a: seq<T>, b: seq<T>, c: seq<T>, d: seq<T>)
    ensures (a + b) + c + d == a + (b + c + d)
  {
  }

  /** Doing one edit after everything behind it has been done. */
  lemma {:induction false} PatchInFront<T>(src: seq<T>, e: Edit<T>, rest: seq<Edit<T>>)
    requires Ascending(rest, e.end, |src|) && e.start <= e.end
    ensures Ascending(rest, 0, |src|) && Ascending([e] + rest, 0, |src|)
    ensures e.end <= |Patched(src, 0, rest)|
    ensures ReplaceAt(Patched(src, 0, rest), e) == Patched(src, 0, [e] + rest)
  {
    PatchedFrom(src, 0, e.end, rest);
    var edits, done := [e] + rest, Patched(src, 0, rest);
    assert edits[0] == e && edits[1..] == rest;
    assert done[..e.start] == src[0..e.start];
    assert done[e.end..] == Patched(src, e.end, rest);
  }

  /** How much longer the text has become where a position of the source is reached. */
  ghost function Shift<T>(edits: seq<Edit<T>>, at: nat): int {
    if edits == [] || at < edits[0].end then 0
    else |edits[0].text| - (edits[0].end - edits[0].start) + Shift(edits[1..], at)
  }

  ghost predicate Untouched<T>(edits: seq<Edit<T>>, at: nat) {
    forall i :: 0 <= i < |edits| ==> at < edits[i].start || edits[i].end <= at
  }

  /** Every element outside the edits is still there, in order. */
  lemma {:induction false} OutsideKept<T>(src: seq<T>, from: nat, edits: seq<Edit<T>>, at: nat)
    requires Ascending(edits, from, |src|) && from <= at < |src| && Untouched(edits, at)
    ensures 0 <= at - from + Shift(edits, at) < |Patched(src, from, edits)|
    ensures Patched(src, from, edits)[at - from + Shift(edits, at)] == src[at]
    decreases |edits|
  {
    AscendingWithin(edits, from, |src|);
    if edits != [] && edits[0].end <= at {
      OutsideKept(src, edits[0].end, edits[1..], at);
    }
  }

  /** Every replacement is in the result, right where its range begins. */
  lemma {:induction false} TextLands<T>(src: seq<T>, from: nat, edits: seq<Edit<T>>, i: nat)
    requires Ascending(edits, from, |src|) && i < |edits|
    ensures
      var at := edits[i].start - from + Shift(edits[..i], edits[i].start);
      0 <= at && At(Patched(src, from, edits), at, edits[i].text)
    decreases |edits|
  {
    AscendingWithin(edits, from, |src|);
    var gap := src[from..edits[0].start];
    var rest := Patched(src, edits[0].end, edits[1..]);
    if i == 0 {
      assert edits[..0] == [];
      AtMiddle(gap, edits[0].text, rest);
    } else {
      StartsLater(edits, from, |src|, i);
      TextLands(src, edits[0].end, edits[1..], i - 1);
      assert edits[..i][1..] == edits[1..][..i - 1];
      AtLater(gap + edits[0].text, rest, edits[i].start - edits[0].end + Shift(edits[1..][..i - 1], edits[i].start), edits[i].text);
    }
  }

  lemma {:induction false} StartsLater<T>(edits: seq<Edit<T>>, from: nat, upto: nat, i: nat)
    requires Ascending(edits, from, upto) && 0 < i < |edits|
    ensures edits[0].end <= edits[i].start
    decreases |edits|
  {
    if i > 1 {
      StartsLater(edits[1..], edits[0].end, upto, i - 1);
    }
  }

  /** `piece` stands in `text` from `at` on. */
  ghost predicate At<T>(text: seq<T>, at: nat, piece: seq<T>) {
    at + |piece| <= |text| && text[at..at + |piece|] == piece
  }

  lemma {:induction false} AtMiddle<T>(a: seq<T>, b: seq<T>, c: seq<T>)
    ensures At(a + b + c, |a|, b)
  {
  }

  lemma {:induction false} AtLater<T>(before: seq<T>, text: seq<T>, at: nat, piece: seq<T>)
    requires At(text, at, piece)
    ensures At(before + text, |before| + at, piece)
  {
  }
}
