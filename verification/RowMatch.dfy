/**
 Which old row each incoming item is (internal/dataapi/rowmatch.go).

 Rows the caller locked keep their pairing, content found exactly once on both sides is paired
 wherever it moved to, and what is left is aligned in order at least cost.
 */
module RowMatch {
  import opened Alignment
  import opened Decimal
  import opened Values

  /** JSON.stringify, foreign code here: any function from values to text. */
  type Encoder = Value -> string

  const UNDEF_KEY := " undef"

  // ----- what a row is compared on -----

  predicate IsObjectShape(shape: Value) {
    shape.Obj? || shape.Arr?
  }

  function ShapeFields(shape: Value): seq<string> {
    match shape
    case Obj(fields) => Keys(fields)
    case Arr(items) => seq(|items|, i requires 0 <= i < |items| => Itoa(i))
    case _ => []
  }

  /** item[f], `Missing` where JavaScript reads undefined. */
  function ItemField(item: Value, f: string): Value {
    match item
    case Obj(fields) => Get(fields, f)
    case Arr(items) => AtIndex(items, f, 0)
    case Str(text) => AtIndex(seq(|text|, i requires 0 <= i < |text| => Str([text[i]])), f, 0)
    case _ => Missing
  }

  /** The entry whose canonical decimal index is `f`. */
  function AtIndex(items: seq<Value>, f: string, from: nat): Value
    decreases |items| - from
  {
    if from >= |items| then Missing
    else if Itoa(from) == f then items[from]
    else AtIndex(items, f, from + 1)
  }

  function EncodedField(v: Value, encode: Encoder): string {
    if v.Missing? then UNDEF_KEY else encode(v)
  }

  /** An item's identity: its text, or the list of its encoded shape fields. */
  datatype Key = Scalar(text: string) | Fields(parts: seq<string>)

  function ItemKey(item: Value, shape: Value, encode: Encoder): Key {
    if IsObjectShape(shape) then
      var fields := ShapeFields(shape);
      Fields(seq(|fields|, i requires 0 <= i < |fields| => EncodedField(ItemField(item, fields[i]), encode)))
    else if IsNullish(item) then Scalar(" null")
    else Scalar(JsString(item))
  }

  /** ===, on the value kinds a scalar list holds. */
  predicate StrictEqual(a: Value, b: Value) {
    if IsNullish(a) || IsNullish(b) then IsNullish(a) && IsNullish(b)
    else a == b && !a.Arr? && !a.Obj?
  }

  function DifferingFields(a: Value, b: Value, shape: Value, encode: Encoder): nat {
    if IsObjectShape(shape) then CountDiffering(a, b, ShapeFields(shape), encode)
    else if StrictEqual(a, b) then 0
    else 1
  }

  function CountDiffering(a: Value, b: Value, fields: seq<string>, encode: Encoder): nat {
    if fields == [] then 0
    else
      (if EncodedField(ItemField(a, fields[0]), encode) != EncodedField(ItemField(b, fields[0]), encode) then 1 else 0)
      + CountDiffering(a, b, fields[1..], encode)
  }

  /** The two comparisons agree on objects: rows share a key exactly when no field differs. */
  lemma {:induction false} KeyAgreesWithCost(a: Value, b: Value, shape: Value, encode: Encoder)
    requires IsObjectShape(shape)
    ensures ItemKey(a, shape, encode) == ItemKey(b, shape, encode) <==> DifferingFields(a, b, shape, encode) == 0
    ensures DifferingFields(a, b, shape, encode) <= |ShapeFields(shape)|
  {
    var fields := ShapeFields(shape);
    var x, y := ItemKey(a, shape, encode).parts, ItemKey(b, shape, encode).parts;
    CountIsZero(a, b, fields, encode);
    if DifferingFields(a, b, shape, encode) == 0 {
      assert forall i :: 0 <= i < |fields| ==> x[i] == y[i];
    } else {
      var i :| 0 <= i < |fields|
        && EncodedField(ItemField(a, fields[i]), encode) != EncodedField(ItemField(b, fields[i]), encode);
      assert x[i] != y[i];
    }
  }

  lemma {:induction false} CountIsZero(a: Value, b: Value, fields: seq<string>, encode: Encoder)
    ensures CountDiffering(a, b, fields, encode) == 0 <==>
      forall i :: 0 <= i < |fields| ==>
        EncodedField(ItemField(a, fields[i]), encode) == EncodedField(ItemField(b, fields[i]), encode)
    ensures CountDiffering(a, b, fields, encode) <= |fields|
  {
    if fields != [] {
      CountIsZero(a, b, fields[1..], encode);
      assert forall i :: 0 < i < |fields| ==> fields[i] == fields[1..][i - 1];
    }
  }

  /** On scalars only one way: "1" and 1 share a key and still count as different. */
  lemma {:induction false} ScalarKeyIsCoarser(a: Value, b: Value, shape: Value, encode: Encoder)
    requires !IsObjectShape(shape)
    ensures DifferingFields(a, b, shape, encode) == 0 ==> ItemKey(a, shape, encode) == ItemKey(b, shape, encode)
    ensures ItemKey(Str("1"), Null, encode) == ItemKey(Num("1"), Null, encode)
    ensures DifferingFields(Str("1"), Num("1"), Null, encode) == 1
  {
  }

  // ----- counting flags -----

  function Count(flags: seq<bool>): nat {
    if flags == [] then 0 else Count(flags[..|flags| - 1]) + (if flags[|flags| - 1] then 1 else 0)
  }

  lemma {:induction false} CountSet(flags: seq<bool>, i: nat)
    requires i < |flags| && !flags[i]
    ensures Count(flags[i := true]) == Count(flags) + 1
  {
    var last := |flags| - 1;
    if i == last {
      assert flags[i := true][..last] == flags[..last];
    } else {
      CountSet(flags[..last], i);
      assert flags[i := true][..last] == flags[..last][i := true];
    }
  }

  lemma {:induction false} CountNone(flags: seq<bool>)
    requires forall i :: 0 <= i < |flags| ==> !flags[i]
    ensures Count(flags) == 0
  {
    if flags != [] {
      CountNone(flags[..|flags| - 1]);
    }
  }

  /** Which items have a row. */
  ghost function Flags(matches: seq<int>): (r: seq<bool>)
    ensures |r| == |matches|
  {
    seq(|matches|, i requires 0 <= i < |matches| => matches[i] >= 0)
  }

  lemma {:induction false} CountMatch(matches: seq<int>, i: nat, j: nat)
    requires i < |matches| && matches[i] < 0
    ensures Count(Flags(matches[i := j])) == Count(Flags(matches)) + 1
  {
    assert Flags(matches[i := j]) == Flags(matches)[i := true];
    CountSet(Flags(matches), i);
  }

  // ----- locks -----

  function LockAt(locked: Option<seq<int>>, i: nat): int {
    if locked.Some? && i < |locked.value| then locked.value[i] else -1
  }

  /** The row item `i` is locked to: an in-range row no earlier item asked for. */
  ghost function LockOf(locked: Option<seq<int>>, m: nat, i: nat): int {
    var j := LockAt(locked, i);
    if 0 <= j < m && forall a: nat :: a < i ==> LockAt(locked, a) != j then j else -1
  }

  ghost predicate Distinct(matches: seq<int>) {
    forall a, b :: 0 <= a < b < |matches| && matches[a] >= 0 ==> matches[a] != matches[b]
  }

  ghost predicate InRange(matches: seq<int>, m: nat) {
    forall i :: 0 <= i < |matches| ==> -1 <= matches[i] < m
  }

  /** Marks the rows in use, one flag set for each matched item. */
  ghost predicate Marks(matches: seq<int>, taken: seq<bool>) {
    && InRange(matches, |taken|)
    && Distinct(matches)
    && (forall j :: 0 <= j < |taken| ==> (taken[j] <==> j in matches))
    && Count(taken) == Count(Flags(matches))
  }

  method KeepLocks(n: nat, m: nat, locked: Option<seq<int>>) returns (matches: array<int>)
    ensures fresh(matches) && matches.Length == n
    ensures forall i :: 0 <= i < n ==> matches[i] == LockOf(locked, m, i)
    ensures Distinct(matches[..]) && InRange(matches[..], m)
  {
    matches := new int[n](_ => -1);
    if locked.Some? {
      var seen: set<int> := {};
      for i := 0 to n
        invariant forall a :: 0 <= a < i ==> matches[a] == LockOf(locked, m, a)
        invariant forall a :: i <= a < n ==> matches[a] == -1
        invariant forall j :: 0 <= j < m ==> (j in seen <==> exists a: nat :: a < i && LockAt(locked, a) == j)
      {
        var j := LockAt(locked, i);
        if !(j < 0 || j >= m || j in seen) {
          matches[i] := j;
          seen := seen + {j};
        }
      }
    }
  }

  // ----- anchors -----

  /** `i` is the only marked position up to `upto` with its key. */
  ghost predicate Sole(keys: seq<Key>, open: seq<bool>, upto: nat, i: nat)
    requires upto <= |keys| == |open|
  {
    && i < upto
    && open[i]
    && forall a: nat :: a < upto && open[a] && keys[a] == keys[i] ==> a == i
  }

  /** Content found exactly once among the unlocked items and once among the unlocked rows. */
  ghost predicate Twin(newKeys: seq<Key>, oldKeys: seq<Key>, openNew: seq<bool>, openOld: seq<bool>, i: nat, j: nat)
    requires |newKeys| == |openNew| && |oldKeys| == |openOld|
  {
    && Sole(newKeys, openNew, |newKeys|, i)
    && Sole(oldKeys, openOld, |oldKeys|, j)
    && newKeys[i] == oldKeys[j]
  }

  ghost function OpenNew(matches: seq<int>): (r: seq<bool>)
    ensures |r| == |matches|
  {
    seq(|matches|, i requires 0 <= i < |matches| => matches[i] < 0)
  }

  ghost function OpenOld(matches: seq<int>, m: nat): (r: seq<bool>)
    ensures |r| == m
  {
    seq(m, j => j !in matches)
  }

  method MarkTaken(matches: array<int>, m: nat) returns (taken: array<bool>)
    requires Distinct(matches[..]) && InRange(matches[..], m)
    ensures fresh(taken) && taken.Length == m
    ensures Marks(matches[..], taken[..])
  {
    taken := new bool[m](_ => false);
    for i := 0 to matches.Length
      invariant forall j :: 0 <= j < m ==> (taken[j] <==> j in matches[..i])
    {
      if matches[i] >= 0 {
        taken[matches[i]] := true;
      }
    }
    assert matches[..matches.Length] == matches[..];
    CountTaken(matches[..], taken[..]);
  }

  lemma {:induction false} CountTaken(matches: seq<int>, taken: seq<bool>)
    requires InRange(matches, |taken|) && Distinct(matches)
    requires forall j :: 0 <= j < |taken| ==> (taken[j] <==> j in matches)
    ensures Count(taken) == Count(Flags(matches))
    decreases |matches|
  {
    if matches == [] {
      CountNone(taken);
    } else {
      var rest, last := matches[..|matches| - 1], matches[|matches| - 1];
      assert matches == rest + [last];
      assert Flags(matches)[..|rest|] == Flags(rest);
      if last < 0 {
        CountTaken(rest, taken);
      } else {
        var before := taken[last := false];
        CountTaken(rest, before);
        CountSet(before, last);
        assert before[last := true] == taken;
      }
    }
  }

  /** Which of the open positions before `upto` has key `k`: -2 for none, -1 for several. */
  ghost function Holder(keys: seq<Key>, open: seq<bool>, upto: nat, k: Key): int
    requires upto <= |keys| == |open|
  {
    if upto == 0 then -2
    else if open[upto - 1] && keys[upto - 1] == k then
      if Holder(keys, open, upto - 1, k) == -2 then upto - 1 else -1
    else Holder(keys, open, upto - 1, k)
  }

  lemma {:induction false} HolderIsSole(keys: seq<Key>, open: seq<bool>, upto: nat, k: Key)
    requires upto <= |keys| == |open|
    ensures -2 <= Holder(keys, open, upto, k) < upto
    ensures Holder(keys, open, upto, k) == -2 <==> forall a: nat :: a < upto && open[a] ==> keys[a] != k
    ensures forall a: nat :: Sole(keys, open, upto, a) && keys[a] == k <==> a == Holder(keys, open, upto, k)
  {
    if upto > 0 {
      HolderIsSole(keys, open, upto - 1, k);
      forall a: nat ensures Sole(keys, open, upto, a) && keys[a] == k <==> a == Holder(keys, open, upto, k) {
        HolderStep(keys, open, upto, k, a);
      }
    }
  }

  lemma {:induction false} HolderStep(keys: seq<Key>, open: seq<bool>, upto: nat, k: Key, a: nat)
    requires 0 < upto <= |keys| == |open|
    requires Holder(keys, open, upto - 1, k) == -2 <==> forall b: nat :: b < upto - 1 && open[b] ==> keys[b] != k
    requires Sole(keys, open, upto - 1, a) && keys[a] == k <==> a == Holder(keys, open, upto - 1, k)
    ensures Sole(keys, open, upto, a) && keys[a] == k <==> a == Holder(keys, open, upto, k)
  {
    var here := open[upto - 1] && keys[upto - 1] == k;
    if here && Holder(keys, open, upto - 1, k) != -2 {
      var b: nat :| b < upto - 1 && open[b] && keys[b] == k;
      assert !(Sole(keys, open, upto, a) && keys[a] == k);
    } else if here {
      assert a < upto - 1 && open[a] ==> keys[a] != k;
    } else if a < upto - 1 && open[a] && keys[a] == k {
      assert Sole(keys, open, upto, a) <==> Sole(keys, open, upto - 1, a);
    }
  }

  /** For each key among the open rows its row, or -1 when several share it. */
  ghost predicate Indexed(oldKeys: seq<Key>, open: seq<bool>, oldByKey: map<Key, int>)
    requires |oldKeys| == |open|
  {
    forall k :: (k in oldByKey <==> Holder(oldKeys, open, |oldKeys|, k) != -2)
             && (k in oldByKey ==> oldByKey[k] == Holder(oldKeys, open, |oldKeys|, k))
  }

  /** A key is counted once exactly when one open item has it. */
  ghost predicate Counted(newKeys: seq<Key>, open: seq<bool>, newCounts: map<Key, nat>)
    requires |newKeys| == |open|
  {
    forall k :: (k in newCounts <==> Holder(newKeys, open, |newKeys|, k) != -2)
             && (k in newCounts ==> (newCounts[k] == 1 <==> Holder(newKeys, open, |newKeys|, k) >= 0))
  }

  method IndexRows(oldKeys: seq<Key>, taken: array<bool>, ghost open: seq<bool>) returns (oldByKey: map<Key, int>)
    requires taken.Length == |oldKeys| == |open|
    requires forall j :: 0 <= j < |open| ==> open[j] == !taken[j]
    ensures Indexed(oldKeys, open, oldByKey)
  {
    oldByKey := map[];
    for j := 0 to |oldKeys|
      invariant forall k :: k in oldByKey <==> Holder(oldKeys, open, j, k) != -2
      invariant forall k :: k in oldByKey ==> oldByKey[k] == Holder(oldKeys, open, j, k)
    {
      HolderIsSole(oldKeys, open, j, oldKeys[j]);
      if taken[j] {
        continue;
      }
      if oldKeys[j] in oldByKey {
        oldByKey := oldByKey[oldKeys[j] := -1];
        continue;
      }
      oldByKey := oldByKey[oldKeys[j] := j];
    }
  }

  method CountItems(newKeys: seq<Key>, matches: array<int>, ghost open: seq<bool>) returns (newCounts: map<Key, nat>)
    requires matches.Length == |newKeys| == |open|
    requires forall i :: 0 <= i < |open| ==> open[i] == (matches[i] < 0)
    ensures Counted(newKeys, open, newCounts)
  {
    newCounts := map[];
    for i := 0 to |newKeys|
      invariant forall k :: k in newCounts <==> Holder(newKeys, open, i, k) != -2
      invariant forall k :: k in newCounts ==> newCounts[k] >= 1 && (newCounts[k] == 1 <==> Holder(newKeys, open, i, k) >= 0)
    {
      HolderIsSole(newKeys, open, i, newKeys[i]);
      if matches[i] >= 0 {
        continue;
      }
      newCounts := newCounts[newKeys[i] := (if newKeys[i] in newCounts then newCounts[newKeys[i]] else 0) + 1];
    }
  }

  /** The row an item has once content found exactly once on both sides is paired. */
  ghost function AnchorOf(newKeys: seq<Key>, oldKeys: seq<Key>, locks: seq<int>, i: nat): int
    requires i < |newKeys| == |locks|
  {
    if locks[i] >= 0 then locks[i]
    else if Holder(newKeys, OpenNew(locks), |newKeys|, newKeys[i]) == i
            && Holder(oldKeys, OpenOld(locks, |oldKeys|), |oldKeys|, newKeys[i]) >= 0
    then Holder(oldKeys, OpenOld(locks, |oldKeys|), |oldKeys|, newKeys[i])
    else -1
  }

  ghost function Anchored(newKeys: seq<Key>, oldKeys: seq<Key>, locks: seq<int>): (r: seq<int>)
    requires |newKeys| == |locks|
    ensures |r| == |locks|
  {
    seq(|locks|, i requires 0 <= i < |locks| => AnchorOf(newKeys, oldKeys, locks, i))
  }

  /** Twins are anchored to each other. */
  lemma {:induction false} TwinsAnchor(newKeys: seq<Key>, oldKeys: seq<Key>, locks: seq<int>, i: nat, j: nat)
    requires |newKeys| == |locks|
    requires Twin(newKeys, oldKeys, OpenNew(locks), OpenOld(locks, |oldKeys|), i, j)
    ensures AnchorOf(newKeys, oldKeys, locks, i) == j
  {
    HolderIsSole(newKeys, OpenNew(locks), |newKeys|, newKeys[i]);
    HolderIsSole(oldKeys, OpenOld(locks, |oldKeys|), |oldKeys|, newKeys[i]);
  }

  /** An anchored row is free until its own item takes it. */
  lemma {:induction false} AnchorIsFree(newKeys: seq<Key>, oldKeys: seq<Key>, locks: seq<int>, a: nat, i: nat)
    requires |newKeys| == |locks| && a < i < |locks|
    requires locks[i] < 0 && AnchorOf(newKeys, oldKeys, locks, i) >= 0
    ensures AnchorOf(newKeys, oldKeys, locks, i) !in locks
    ensures AnchorOf(newKeys, oldKeys, locks, a) != AnchorOf(newKeys, oldKeys, locks, i)
  {
    var open := OpenOld(locks, |oldKeys|);
    HolderIsSole(oldKeys, open, |oldKeys|, newKeys[i]);
    HolderIsSole(oldKeys, open, |oldKeys|, newKeys[a]);
    assert Sole(oldKeys, open, |oldKeys|, AnchorOf(newKeys, oldKeys, locks, i));
  }

  /** Gives a free row to an open item. */
  method Take(matches: array<int>, taken: array<bool>, i: nat, j: nat)
    requires i < matches.Length && j < taken.Length
    requires Marks(matches[..], taken[..])
    requires matches[i] < 0 && j !in matches[..]
    modifies matches, taken
    ensures matches[..] == old(matches[..])[i := j]
    ensures Marks(matches[..], taken[..])
  {
    ghost var before, flags := matches[..], taken[..];
    matches[i] := j;
    taken[j] := true;
    assert matches[..] == before[i := j] && taken[..] == flags[j := true];
    MarksGrow(before, flags, i, j);
  }

  lemma {:induction false} MarksGrow(matches: seq<int>, taken: seq<bool>, i: nat, j: nat)
    requires i < |matches| && j < |taken|
    requires Marks(matches, taken) && matches[i] < 0 && j !in matches
    ensures Marks(matches[i := j], taken[j := true])
  {
    CountMatch(matches, i, j);
    CountSet(taken, j);
    var after := matches[i := j];
    forall r | 0 <= r < |taken| ensures taken[j := true][r] <==> r in after {
      if r in matches {
        var at :| 0 <= at < |matches| && matches[at] == r;
        assert after[at] == r;
      }
      assert after[i] == j;
    }
  }

  method Anchor(newKeys: seq<Key>, oldKeys: seq<Key>, matches: array<int>, taken: array<bool>)
    requires matches.Length == |newKeys| && taken.Length == |oldKeys|
    requires Marks(matches[..], taken[..])
    modifies matches, taken
    ensures matches[..] == Anchored(newKeys, oldKeys, old(matches[..]))
    ensures Marks(matches[..], taken[..])
  {
    ghost var locks := matches[..];
    ghost var anchored := Anchored(newKeys, oldKeys, locks);
    SplicedEnds(anchored, locks);
    var oldByKey, newCounts := CountKeys(newKeys, oldKeys, matches, taken);
    for i := 0 to |newKeys|
      invariant matches[..] == Spliced(anchored, locks, i)
      invariant Marks(matches[..], taken[..])
    {
      AnchorItem(newKeys, oldKeys, newCounts, oldByKey, matches, taken, i, locks);
    }
  }

  /** Uniqueness is counted over the rows still in play, never over the locked ones. */
  method CountKeys(newKeys: seq<Key>, oldKeys: seq<Key>, matches: array<int>, taken: array<bool>)
    returns (oldByKey: map<Key, int>, newCounts: map<Key, nat>)
    requires matches.Length == |newKeys| && taken.Length == |oldKeys|
    requires Marks(matches[..], taken[..])
    ensures Indexed(oldKeys, OpenOld(matches[..], |oldKeys|), oldByKey)
    ensures Counted(newKeys, OpenNew(matches[..]), newCounts)
  {
    oldByKey := IndexRows(oldKeys, taken, OpenOld(matches[..], |oldKeys|));
    newCounts := CountItems(newKeys, matches, OpenNew(matches[..]));
  }

  /** One turn of the loop: item `i` goes to its twin, if it has one. */
  method AnchorItem(newKeys: seq<Key>, oldKeys: seq<Key>, newCounts: map<Key, nat>, oldByKey: map<Key, int>,
                    matches: array<int>, taken: array<bool>, i: nat, ghost locks: seq<int>)
    requires i < matches.Length == |newKeys| == |locks| && taken.Length == |oldKeys|
    requires Counted(newKeys, OpenNew(locks), newCounts)
    requires Indexed(oldKeys, OpenOld(locks, |oldKeys|), oldByKey)
    requires matches[..] == Spliced(Anchored(newKeys, oldKeys, locks), locks, i)
    requires Marks(matches[..], taken[..])
    modifies matches, taken
    ensures matches[..] == Spliced(Anchored(newKeys, oldKeys, locks), locks, i + 1)
    ensures Marks(matches[..], taken[..])
  {
    Advance(Anchored(newKeys, oldKeys, locks), locks, i);
    ghost var now := matches[..];
    assert matches[i] == now[i] == locks[i];
    if matches[i] >= 0 {
      return;
    }
    var j := TwinOf(newKeys, oldKeys, newCounts, oldByKey, i, locks);
    if j == -1 {
      assert now[i] == -1;
      return;
    }
    AnchorIsUnused(newKeys, oldKeys, locks, now, i);
    if taken[j] {
      assert false;
    }
    Take(matches, taken, i, j);
  }

  /** The first `i` entries of one sequence and the others of another. */
  ghost function Spliced(done: seq<int>, rest: seq<int>, i: nat): (r: seq<int>)
    requires i <= |done| == |rest|
    ensures |r| == |done|
  {
    done[..i] + rest[i..]
  }

  lemma {:induction false} SplicedEnds(done: seq<int>, rest: seq<int>)
    requires |done| == |rest|
    ensures Spliced(done, rest, 0) == rest && Spliced(done, rest, |done|) == done
  {
  }

  lemma {:induction false} Advance(done: seq<int>, rest: seq<int>, i: nat)
    requires i < |done| == |rest|
    ensures Spliced(done, rest, i)[i] == rest[i]
    ensures Spliced(done, rest, i + 1) == Spliced(done, rest, i)[i := done[i]]
    ensures done[i] == rest[i] ==> Spliced(done, rest, i + 1) == Spliced(done, rest, i)
  {
  }

  method TwinOf(newKeys: seq<Key>, oldKeys: seq<Key>, newCounts: map<Key, nat>, oldByKey: map<Key, int>, i: nat, ghost locks: seq<int>)
    returns (j: int)
    requires i < |newKeys| == |locks| && locks[i] < 0
    requires Counted(newKeys, OpenNew(locks), newCounts)
    requires Indexed(oldKeys, OpenOld(locks, |oldKeys|), oldByKey)
    ensures j == AnchorOf(newKeys, oldKeys, locks, i) && -1 <= j < |oldKeys|
  {
    HolderIsSole(newKeys, OpenNew(locks), |newKeys|, newKeys[i]);
    HolderIsSole(oldKeys, OpenOld(locks, |oldKeys|), |oldKeys|, newKeys[i]);
    assert OpenNew(locks)[i];
    if newCounts[newKeys[i]] != 1 {
      return -1;
    }
    SoleHolder(newKeys, OpenNew(locks), i);
    if newKeys[i] !in oldByKey {
      return -1;
    }
    return oldByKey[newKeys[i]];
  }

  /** An open item whose key has one holder is that holder. */
  lemma {:induction false} SoleHolder(keys: seq<Key>, open: seq<bool>, i: nat)
    requires i < |keys| == |open| && open[i]
    requires Holder(keys, open, |keys|, keys[i]) >= 0
    ensures Sole(keys, open, |keys|, i) && Holder(keys, open, |keys|, keys[i]) == i
  {
    HolderIsSole(keys, open, |keys|, keys[i]);
    assert Sole(keys, open, |keys|, Holder(keys, open, |keys|, keys[i]));
  }

  lemma {:induction false} AnchorIsUnused(newKeys: seq<Key>, oldKeys: seq<Key>, locks: seq<int>, matches: seq<int>, i: nat)
    requires |newKeys| == |locks| == |matches| && i < |locks|
    requires matches == Spliced(Anchored(newKeys, oldKeys, locks), locks, i)
    requires locks[i] < 0 && AnchorOf(newKeys, oldKeys, locks, i) >= 0
    ensures AnchorOf(newKeys, oldKeys, locks, i) !in matches
  {
    var j := AnchorOf(newKeys, oldKeys, locks, i);
    HolderIsSole(oldKeys, OpenOld(locks, |oldKeys|), |oldKeys|, newKeys[i]);
    assert Sole(oldKeys, OpenOld(locks, |oldKeys|), |oldKeys|, j);
    forall a | 0 <= a < |matches| ensures matches[a] != j {
      if a < i {
        AnchorIsFree(newKeys, oldKeys, locks, a, i);
      }
    }
  }

  // ----- what is left -----

  /** The positions whose flag is not set, in order. */
  ghost function Unset(flags: seq<bool>): seq<nat> {
    if flags == [] then []
    else Unset(flags[..|flags| - 1]) + (if flags[|flags| - 1] then [] else [|flags| - 1])
  }

  lemma {:induction false} UnsetMembers(flags: seq<bool>, i: nat)
    ensures i in Unset(flags) <==> i < |flags| && !flags[i]
  {
    if flags != [] {
      UnsetMembers(flags[..|flags| - 1], i);
    }
  }

  lemma {:induction false} UnsetCounts(flags: seq<bool>)
    ensures |Unset(flags)| + Count(flags) == |flags|
  {
    if flags != [] {
      UnsetCounts(flags[..|flags| - 1]);
    }
  }

  lemma {:induction false} UnsetIncreases(flags: seq<bool>)
    ensures Increasing(Unset(flags))
  {
    if flags != [] {
      var before := flags[..|flags| - 1];
      var rest := Unset(before);
      UnsetIncreases(before);
      forall k | 0 <= k < |rest| ensures rest[k] < |before| {
        UnsetMembers(before, rest[k]);
        assert rest[k] in rest;
      }
    }
  }

  method CollectUnset(flags: seq<bool>) returns (left: seq<nat>)
    ensures left == Unset(flags)
  {
    left := [];
    for i := 0 to |flags|
      invariant left == Unset(flags[..i])
    {
      assert flags[..i + 1][..i] == flags[..i];
      if !flags[i] {
        left := left + [i];
      }
    }
    assert flags[..|flags|] == flags;
  }

  /** The row `pairs` gives item `i`, -1 when it gives none. */
  ghost function PairedWith(pairs: seq<(nat, nat)>, i: nat): int {
    if pairs == [] then -1
    else if pairs[|pairs| - 1].0 == i then pairs[|pairs| - 1].1
    else PairedWith(pairs[..|pairs| - 1], i)
  }

  ghost function Completed(anchored: seq<int>, pairs: seq<(nat, nat)>): (r: seq<int>)
    ensures |r| == |anchored|
  {
    seq(|anchored|, i requires 0 <= i < |anchored| => if anchored[i] >= 0 then anchored[i] else PairedWith(pairs, i))
  }

  lemma {:induction false} PairedWithAt(pairs: seq<(nat, nat)>, k: nat)
    requires Increasing(News(pairs)) && k < |pairs|
    ensures PairedWith(pairs, pairs[k].0) == pairs[k].1
  {
    var last := |pairs| - 1;
    assert News(pairs)[k] == pairs[k].0 && News(pairs)[last] == pairs[last].0;
    if k < last {
      var rest := pairs[..last];
      assert forall a :: 0 <= a < last ==> News(rest)[a] == News(pairs)[a];
      PairedWithAt(rest, k);
    }
  }

  lemma {:induction false} PairedWithMember(pairs: seq<(nat, nat)>, i: nat)
    ensures PairedWith(pairs, i) != -1 ==> exists k :: 0 <= k < |pairs| && pairs[k] == (i, PairedWith(pairs, i))
    ensures PairedWith(pairs, i) == -1 ==> forall k :: 0 <= k < |pairs| ==> pairs[k].0 != i
  {
    if pairs != [] {
      PairedWithMember(pairs[..|pairs| - 1], i);
    }
  }

  // ----- the two parts of a pairing's cost -----

  /** |i - j| */
  function Apart(i: nat, j: nat): nat {
    if i < j then j - i else i - j
  }

  function Scale(n: nat, m: nat): nat {
    n * m + 1
  }

  /** Fields a pairing changes. */
  ghost function DifferCost(newItems: seq<Value>, oldValues: seq<Value>, shape: Value, encode: Encoder): Cost {
    (i: nat, j: nat) => if i < |newItems| && j < |oldValues| then DifferingFields(newItems[i], oldValues[j], shape, encode) else 0
  }

  /** How far a pairing moves a row. */
  ghost function MoveCost(): Cost {
    (i: nat, j: nat) => Apart(i, j)
  }

  function RowCost(newItems: seq<Value>, oldValues: seq<Value>, shape: Value, encode: Encoder): Cost {
    (i: nat, j: nat) =>
      (if i < |newItems| && j < |oldValues| then DifferingFields(newItems[i], oldValues[j], shape, encode) else 0)
        * Scale(|newItems|, |oldValues|) + Apart(i, j)
  }

  ghost predicate Within(pairs: seq<(nat, nat)>, n: nat, m: nat) {
    |pairs| <= Fewer(n, m) && forall k :: 0 <= k < |pairs| ==> pairs[k].0 < n && pairs[k].1 < m
  }

  /** A pairing's cost is its differing fields times the scale, plus its displacement. */
  lemma {:induction false} CostSplits(pairs: seq<(nat, nat)>, newItems: seq<Value>, oldValues: seq<Value>, shape: Value, encode: Encoder)
    ensures PairTotal(pairs, RowCost(newItems, oldValues, shape, encode))
      == PairTotal(pairs, DifferCost(newItems, oldValues, shape, encode)) * Scale(|newItems|, |oldValues|)
         + PairTotal(pairs, MoveCost())
  {
    if pairs != [] {
      CostSplits(pairs[1..], newItems, oldValues, shape, encode);
      Distribute(DifferCost(newItems, oldValues, shape, encode)(pairs[0].0, pairs[0].1),
                 PairTotal(pairs[1..], DifferCost(newItems, oldValues, shape, encode)),
                 Scale(|newItems|, |oldValues|));
    }
  }

  lemma {:induction false} Distribute(a: int, b: int, c: int)
    ensures (a + b) * c == a * c + b * c
  {
  }

  /** No pairing can move rows as far as the scale. */
  lemma {:induction false} MovesStayBelowScale(pairs: seq<(nat, nat)>, n: nat, m: nat)
    requires Within(pairs, n, m)
    ensures PairTotal(pairs, MoveCost()) < Scale(n, m)
  {
    var far := if n <= m then m else n;
    MovesWithinBudget(pairs, n, m, far);
    BudgetGrows(|pairs|, Fewer(n, m), far);
    BudgetIsProduct(Fewer(n, m), far);
    assert Fewer(n, m) * far == n * m;
  }

  lemma {:induction false} MovesWithinBudget(pairs: seq<(nat, nat)>, n: nat, m: nat, far: nat)
    requires n <= far && m <= far
    requires forall k :: 0 <= k < |pairs| ==> pairs[k].0 < n && pairs[k].1 < m
    ensures PairTotal(pairs, MoveCost()) <= Budget(|pairs|, far)
  {
    if pairs != [] {
      assert pairs[0].0 < n && pairs[0].1 < m;
      assert MoveCost()(pairs[0].0, pairs[0].1) == Apart(pairs[0].0, pairs[0].1);
      assert forall k :: 0 <= k < |pairs[1..]| ==> pairs[1..][k] == pairs[k + 1];
      MovesWithinBudget(pairs[1..], n, m, far);
    }
  }

  /** Fewer changed fields first, less displacement second. */
  ghost predicate NoWorse(ps: seq<(nat, nat)>, qs: seq<(nat, nat)>, differ: Cost) {
    || PairTotal(ps, differ) < PairTotal(qs, differ)
    || (PairTotal(ps, differ) == PairTotal(qs, differ) && PairTotal(ps, MoveCost()) <= PairTotal(qs, MoveCost()))
  }

  /** The weighted cost is a lexicographic objective. */
  lemma {:induction false} ScaledCostIsLexicographic(ps: seq<(nat, nat)>, qs: seq<(nat, nat)>, newItems: seq<Value>, oldValues: seq<Value>, shape: Value, encode: Encoder)
    requires Within(ps, |newItems|, |oldValues|) && Within(qs, |newItems|, |oldValues|)
    ensures PairTotal(ps, RowCost(newItems, oldValues, shape, encode)) <= PairTotal(qs, RowCost(newItems, oldValues, shape, encode))
      <==> NoWorse(ps, qs, DifferCost(newItems, oldValues, shape, encode))
  {
    CostSplits(ps, newItems, oldValues, shape, encode);
    CostSplits(qs, newItems, oldValues, shape, encode);
    MovesStayBelowScale(ps, |newItems|, |oldValues|);
    MovesStayBelowScale(qs, |newItems|, |oldValues|);
    var differ := DifferCost(newItems, oldValues, shape, encode);
    TwoDigits(PairTotal(ps, differ), PairTotal(ps, MoveCost()), PairTotal(qs, differ), PairTotal(qs, MoveCost()), Scale(|newItems|, |oldValues|));
  }

  /** Comparing two-digit numbers compares the high digit, then the low one. */
  lemma {:induction false} TwoDigits(a: nat, x: nat, b: nat, y: nat, base: nat)
    requires x < base && y < base
    ensures a * base + x <= b * base + y <==> a < b || (a == b && x <= y)
  {
    if a < b {
      assert a * base + base <= b * base by { Distribute(a, 1, base); Grows(a + 1, b, base); }
    } else if b < a {
      assert b * base + base <= a * base by { Distribute(b, 1, base); Grows(b + 1, a, base); }
    }
  }

  lemma {:induction false} Grows(a: nat, b: nat, c: nat)
    requires a <= b
    ensures a * c <= b * c
  {
  }

  // ----- the whole match -----

  function Width(shape: Value): nat {
    if IsObjectShape(shape) then |ShapeFields(shape)| else 1
  }

  /** A whole pairing's cost stays below the infeasible mark of the machine integer. */
  predicate FitsMachine(n: nat, m: nat, shape: Value) {
    Budget(Fewer(n, m), Ceiling(n, m, shape)) < INF
  }

  /** The most one pair can cost. */
  function Ceiling(n: nat, m: nat, shape: Value): nat {
    Width(shape) * Scale(n, m) + n + m
  }

  lemma {:induction false} CostWithin(newItems: seq<Value>, oldValues: seq<Value>, shape: Value, encode: Encoder, i: nat, j: nat)
    requires i < |newItems| && j < |oldValues|
    ensures RowCost(newItems, oldValues, shape, encode)(i, j)
      <= Ceiling(|newItems|, |oldValues|, shape)
  {
    if IsObjectShape(shape) {
      KeyAgreesWithCost(newItems[i], oldValues[j], shape, encode);
    }
    Grows(DifferingFields(newItems[i], oldValues[j], shape, encode), Width(shape), Scale(|newItems|, |oldValues|));
  }

  ghost function TakenBy(matches: seq<int>, m: nat): (r: seq<bool>)
    ensures |r| == m
  {
    seq(m, j => j in matches)
  }

  /** Items and rows neither locked nor anchored. */
  ghost function LeftNew(anchored: seq<int>): seq<nat> {
    Unset(Flags(anchored))
  }

  ghost function LeftOld(anchored: seq<int>, m: nat): seq<nat> {
    Unset(TakenBy(anchored, m))
  }

  lemma {:induction false} CompletedStep(anchored: seq<int>, pairs: seq<(nat, nat)>, k: nat)
    requires k < |pairs| && Increasing(News(pairs))
    requires pairs[k].0 < |anchored| && anchored[pairs[k].0] < 0
    ensures Completed(anchored, pairs[..k])[pairs[k].0] < 0
    ensures Completed(anchored, pairs[..k + 1]) == Completed(anchored, pairs[..k])[pairs[k].0 := pairs[k].1]
  {
    var before, i := pairs[..k], pairs[k].0;
    PairedWithMember(before, i);
    assert News(pairs)[k] == i;
    assert forall a :: 0 <= a < k ==> News(pairs)[a] == before[a].0;
    assert pairs[..k + 1][..k] == before;
  }

  lemma {:induction false} CompletedCount(anchored: seq<int>, pairs: seq<(nat, nat)>, k: nat)
    requires k <= |pairs| && Increasing(News(pairs))
    requires forall a :: 0 <= a < |pairs| ==> pairs[a].0 < |anchored| && anchored[pairs[a].0] < 0
    ensures Count(Flags(Completed(anchored, pairs[..k]))) == Count(Flags(anchored)) + k
  {
    if k == 0 {
      assert Flags(Completed(anchored, [])) == Flags(anchored);
    } else {
      CompletedCount(anchored, pairs, k - 1);
      CompletedStep(anchored, pairs, k - 1);
      CountMatch(Completed(anchored, pairs[..k - 1]), pairs[k - 1].0, pairs[k - 1].1);
    }
  }

  /** The leftovers are open items and free rows. */
  lemma {:induction false} LeftoversAreFree(anchored: seq<int>, m: nat, pairs: seq<(nat, nat)>, k: nat)
    requires InOrder(pairs, LeftNew(anchored), LeftOld(anchored, m)) && k < |pairs|
    ensures pairs[k].0 < |anchored| && anchored[pairs[k].0] < 0
    ensures pairs[k].1 < m && pairs[k].1 !in anchored
  {
    UnsetMembers(Flags(anchored), pairs[k].0);
    UnsetMembers(TakenBy(anchored, m), pairs[k].1);
  }

  /** Completing an anchored match pairs every row it can and no row twice. */
  lemma {:induction false} CompletedPairsAll(anchored: seq<int>, m: nat, pairs: seq<(nat, nat)>)
    requires Distinct(anchored) && InRange(anchored, m)
    requires InOrder(pairs, LeftNew(anchored), LeftOld(anchored, m))
    ensures Distinct(Completed(anchored, pairs)) && InRange(Completed(anchored, pairs), m)
    ensures Count(Flags(Completed(anchored, pairs))) == Fewer(|anchored|, m)
  {
    var matches := Completed(anchored, pairs);
    forall k | 0 <= k < |pairs| ensures pairs[k].0 < |anchored| && anchored[pairs[k].0] < 0 {
      LeftoversAreFree(anchored, m, pairs, k);
    }
    forall i | 0 <= i < |matches| ensures -1 <= matches[i] < m {
      WhereFrom(anchored, m, pairs, i);
    }
    forall a, b | 0 <= a < b < |matches| && matches[a] >= 0 ensures matches[a] != matches[b] {
      CompletedApart(anchored, m, pairs, a, b);
    }
    assert pairs[..|pairs|] == pairs;
    CompletedCount(anchored, pairs, |pairs|);
    CountTaken(anchored, TakenBy(anchored, m));
    UnsetCounts(Flags(anchored));
    UnsetCounts(TakenBy(anchored, m));
  }

  lemma {:induction false} WhereFrom(anchored: seq<int>, m: nat, pairs: seq<(nat, nat)>, i: nat)
    requires i < |anchored| && InRange(anchored, m)
    requires InOrder(pairs, LeftNew(anchored), LeftOld(anchored, m))
    ensures -1 <= Completed(anchored, pairs)[i] < m
    ensures anchored[i] < 0 && Completed(anchored, pairs)[i] >= 0 ==>
      Completed(anchored, pairs)[i] !in anchored && exists k :: 0 <= k < |pairs| && pairs[k] == (i, Completed(anchored, pairs)[i])
  {
    if anchored[i] < 0 {
      PairedWithMember(pairs, i);
      if PairedWith(pairs, i) != -1 {
        var k :| 0 <= k < |pairs| && pairs[k] == (i, PairedWith(pairs, i));
        LeftoversAreFree(anchored, m, pairs, k);
      }
    }
  }

  lemma {:induction false} CompletedApart(anchored: seq<int>, m: nat, pairs: seq<(nat, nat)>, a: nat, b: nat)
    requires a < b < |anchored| && Distinct(anchored) && InRange(anchored, m)
    requires InOrder(pairs, LeftNew(anchored), LeftOld(anchored, m))
    requires Completed(anchored, pairs)[a] >= 0
    ensures Completed(anchored, pairs)[a] != Completed(anchored, pairs)[b]
  {
    var matches := Completed(anchored, pairs);
    WhereFrom(anchored, m, pairs, a);
    WhereFrom(anchored, m, pairs, b);
    if anchored[a] < 0 && anchored[b] < 0 && matches[b] >= 0 {
      var j :| 0 <= j < |pairs| && pairs[j] == (a, matches[a]);
      var k :| 0 <= k < |pairs| && pairs[k] == (b, matches[b]);
      assert Olds(pairs)[j] == matches[a] && Olds(pairs)[k] == matches[b];
    }
  }

  /** When no row is anchored elsewhere than at its own place, none is aligned elsewhere either. */
  lemma {:induction false} OwnPlaces(anchored: seq<int>, pairs: seq<(nat, nat)>, i: nat)
    requires i < |anchored| && forall a :: 0 <= a < |anchored| ==> anchored[a] == -1 || anchored[a] == a
    requires InOrder(pairs, LeftNew(anchored), LeftOld(anchored, |anchored|))
    ensures Completed(anchored, pairs)[i] == i
  {
    var n := |anchored|;
    assert TakenBy(anchored, n) == Flags(anchored) by {
      forall j | 0 <= j < n ensures (j in anchored) == (anchored[j] >= 0) {
        if anchored[j] >= 0 {
          assert anchored[j] in anchored;
        }
      }
    }
    if anchored[i] < 0 {
      var left := LeftNew(anchored);
      UnsetIncreases(Flags(anchored));
      WholeList(News(pairs), left);
      WholeList(Olds(pairs), left);
      UnsetMembers(Flags(anchored), i);
      var k :| 0 <= k < |left| && left[k] == i;
      assert News(pairs)[k] == i && Olds(pairs)[k] == i;
      PairedWithAt(pairs, k);
    }
  }

  /** Posting the same rows back keeps every row in its place, duplicates included. */
  lemma {:induction false} SameKeysStay(keys: seq<Key>, anchored: seq<int>, pairs: seq<(nat, nat)>, i: nat)
    requires i < |keys| == |anchored|
    requires anchored == Anchored(keys, keys, seq(|keys|, _ => -1))
    requires InOrder(pairs, LeftNew(anchored), LeftOld(anchored, |keys|))
    ensures Completed(anchored, pairs)[i] == i
  {
    var locks, n := seq(|keys|, _ => -1), |keys|;
    assert OpenNew(locks) == OpenOld(locks, n);
    forall a | 0 <= a < n ensures anchored[a] == -1 || anchored[a] == a {
      assert anchored[a] == AnchorOf(keys, keys, locks, a);
    }
    OwnPlaces(anchored, pairs, i);
  }

  /** Items that are all alike keep the rows in their places when there are as many. */
  lemma {:induction false} AlikeKeysStay(newKeys: seq<Key>, oldKeys: seq<Key>, anchored: seq<int>, pairs: seq<(nat, nat)>, i: nat)
    requires i < |newKeys| == |oldKeys| == |anchored|
    requires forall a, b :: 0 <= a < |newKeys| && 0 <= b < |newKeys| ==> newKeys[a] == newKeys[b]
    requires anchored == Anchored(newKeys, oldKeys, seq(|newKeys|, _ => -1))
    requires InOrder(pairs, LeftNew(anchored), LeftOld(anchored, |oldKeys|))
    ensures Completed(anchored, pairs)[i] == i
  {
    var locks, n := seq(|newKeys|, _ => -1), |newKeys|;
    forall a | 0 <= a < n ensures anchored[a] == -1 || anchored[a] == a {
      assert anchored[a] == AnchorOf(newKeys, oldKeys, locks, a);
      HolderIsSole(newKeys, OpenNew(locks), n, newKeys[a]);
      HolderIsSole(oldKeys, OpenOld(locks, n), n, newKeys[a]);
      if n > 1 {
        var b: nat := if a == 0 then 1 else 0;
        assert OpenNew(locks)[b] && newKeys[b] == newKeys[a];
        assert !Sole(newKeys, OpenNew(locks), n, a);
      }
    }
    OwnPlaces(anchored, pairs, i);
  }

  ghost function Locks(locked: Option<seq<int>>, n: nat, m: nat): (r: seq<int>)
    ensures |r| == n
  {
    seq(n, i requires 0 <= i < n => LockOf(locked, m, i))
  }

  function ItemKeys(items: seq<Value>, shape: Value, encode: Encoder): (r: seq<Key>)
    ensures |r| == |items|
  {
    seq(|items|, i requires 0 <= i < |items| => ItemKey(items[i], shape, encode))
  }

  /** With no row or no item there is nothing to anchor. */
  lemma {:induction false} NothingToAnchor(newKeys: seq<Key>, oldKeys: seq<Key>, locks: seq<int>)
    requires |newKeys| == |locks| && (newKeys == [] || oldKeys == [])
    requires InRange(locks, |oldKeys|)
    ensures Anchored(newKeys, oldKeys, locks) == locks
  {
  }

  /** With one side empty the empty pairing is the only one. */
  lemma {:induction false} EmptyIsBest(newIdx: seq<nat>, oldIdx: seq<nat>, cost: Cost)
    requires newIdx == [] || oldIdx == []
    ensures Best([], newIdx, oldIdx, cost)
  {
  }

  lemma {:induction false} CompletedByNone(anchored: seq<int>)
    requires forall i :: 0 <= i < |anchored| ==> anchored[i] >= -1
    ensures Completed(anchored, []) == anchored
  {
  }

  /** What locks and anchors settle, in terms of the rows themselves. */
  ghost function Settled(newItems: seq<Value>, oldValues: seq<Value>, shape: Value, encode: Encoder, locked: Option<seq<int>>): (r: seq<int>)
    ensures |r| == |newItems|
  {
    Anchored(ItemKeys(newItems, shape, encode), ItemKeys(oldValues, shape, encode), Locks(locked, |newItems|, |oldValues|))
  }

  /** Aligns what is left at the weighted cost. */
  method AlignLeftovers(newItems: seq<Value>, oldValues: seq<Value>, shape: Value, encode: Encoder, ghost anchored: seq<int>, leftNew: seq<nat>, leftOld: seq<nat>)
    returns (pairs: seq<(nat, nat)>)
    requires FitsMachine(|newItems|, |oldValues|, shape)
    requires |anchored| == |newItems|
    requires leftNew == LeftNew(anchored) && leftOld == LeftOld(anchored, |oldValues|)
    ensures Best(pairs, leftNew, leftOld, RowCost(newItems, oldValues, shape, encode))
  {
    ghost var n, m := |newItems|, |oldValues|;
    ghost var bound := Ceiling(n, m, shape);
    UnsetIncreases(Flags(anchored));
    UnsetIncreases(TakenBy(anchored, m));
    UnsetCounts(Flags(anchored));
    UnsetCounts(TakenBy(anchored, m));
    BudgetGrows(Fewer(|leftNew|, |leftOld|), Fewer(n, m), bound);
    LeftoverCosts(newItems, oldValues, shape, encode, anchored);
    pairs := AlignInOrder(leftNew, leftOld, RowCost(newItems, oldValues, shape, encode), bound);
  }

  lemma {:induction false} LeftoverCosts(newItems: seq<Value>, oldValues: seq<Value>, shape: Value, encode: Encoder, anchored: seq<int>)
    requires |anchored| == |newItems|
    ensures forall a, b :: 0 <= a < |LeftNew(anchored)| && 0 <= b < |LeftOld(anchored, |oldValues|)| ==>
      RowCost(newItems, oldValues, shape, encode)(LeftNew(anchored)[a], LeftOld(anchored, |oldValues|)[b])
        <= Ceiling(|newItems|, |oldValues|, shape)
  {
    var leftNew, leftOld := LeftNew(anchored), LeftOld(anchored, |oldValues|);
    forall a, b | 0 <= a < |leftNew| && 0 <= b < |leftOld|
      ensures RowCost(newItems, oldValues, shape, encode)(leftNew[a], leftOld[b])
        <= Ceiling(|newItems|, |oldValues|, shape)
    {
      UnsetMembers(Flags(anchored), leftNew[a]);
      UnsetMembers(TakenBy(anchored, |oldValues|), leftOld[b]);
      CostWithin(newItems, oldValues, shape, encode, leftNew[a], leftOld[b]);
    }
  }

  method WritePairs(rows: array<int>, pairs: seq<(nat, nat)>, ghost anchored: seq<int>, ghost m: nat)
    requires rows[..] == anchored && InRange(anchored, m)
    requires InOrder(pairs, LeftNew(anchored), LeftOld(anchored, m))
    modifies rows
    ensures rows[..] == Completed(anchored, pairs)
  {
    CompletedByNone(anchored);
    for k := 0 to |pairs|
      invariant rows[..] == Completed(anchored, pairs[..k])
    {
      LeftoversAreFree(anchored, m, pairs, k);
      CompletedStep(anchored, pairs, k);
      rows[pairs[k].0] := pairs[k].1;
    }
    assert pairs[..|pairs|] == pairs;
  }

  /** Every way of pairing the leftovers in order changes as many fields, or as many and moves as far. */
  lemma {:induction false} BestIsLexicographic(newItems: seq<Value>, oldValues: seq<Value>, shape: Value, encode: Encoder, anchored: seq<int>, pairs: seq<(nat, nat)>, qs: seq<(nat, nat)>)
    requires |anchored| == |newItems|
    requires Best(pairs, LeftNew(anchored), LeftOld(anchored, |oldValues|), RowCost(newItems, oldValues, shape, encode))
    requires InOrder(qs, LeftNew(anchored), LeftOld(anchored, |oldValues|))
    ensures NoWorse(pairs, qs, DifferCost(newItems, oldValues, shape, encode))
  {
    LeftoversWithin(anchored, |oldValues|, pairs);
    LeftoversWithin(anchored, |oldValues|, qs);
    ScaledCostIsLexicographic(pairs, qs, newItems, oldValues, shape, encode);
  }

  lemma {:induction false} LeftoversWithin(anchored: seq<int>, m: nat, pairs: seq<(nat, nat)>)
    requires InOrder(pairs, LeftNew(anchored), LeftOld(anchored, m))
    ensures Within(pairs, |anchored|, m)
  {
    UnsetCounts(Flags(anchored));
    UnsetCounts(TakenBy(anchored, m));
    forall k | 0 <= k < |pairs| ensures pairs[k].0 < |anchored| && pairs[k].1 < m {
      LeftoversAreFree(anchored, m, pairs, k);
    }
  }

  /** Locks and anchors themselves are distinct rows. */
  lemma {:induction false} AnchoredDistinct(newKeys: seq<Key>, oldKeys: seq<Key>, locks: seq<int>)
    requires |newKeys| == |locks|
    requires Distinct(locks) && InRange(locks, |oldKeys|)
    ensures var anchored := Anchored(newKeys, oldKeys, locks); Distinct(anchored) && InRange(anchored, |oldKeys|)
  {
    var anchored := Anchored(newKeys, oldKeys, locks);
    forall i | 0 <= i < |anchored| ensures -1 <= anchored[i] < |oldKeys| {
      HolderIsSole(oldKeys, OpenOld(locks, |oldKeys|), |oldKeys|, newKeys[i]);
    }
    forall a, b | 0 <= a < b < |anchored| && anchored[a] >= 0 ensures anchored[a] != anchored[b] {
      if anchored[b] >= 0 && locks[b] < 0 {
        AnchorIsFree(newKeys, oldKeys, locks, a, b);
      } else if locks[a] < 0 && locks[b] >= 0 {
        HolderIsSole(oldKeys, OpenOld(locks, |oldKeys|), |oldKeys|, newKeys[a]);
        assert Sole(oldKeys, OpenOld(locks, |oldKeys|), |oldKeys|, anchored[a]);
      }
    }
  }

  /** Locks and twins are settled, and the leftovers paired in order, none of the ways to do so changing less or moving less. */
  ghost predicate BestMatch(newItems: seq<Value>, oldValues: seq<Value>, shape: Value, encode: Encoder, locked: Option<seq<int>>, matches: seq<int>, pairs: seq<(nat, nat)>) {
    var settled := Settled(newItems, oldValues, shape, encode, locked);
    && matches == Completed(settled, pairs)
    && InOrder(pairs, LeftNew(settled), LeftOld(settled, |oldValues|))
    && forall qs :: InOrder(qs, LeftNew(settled), LeftOld(settled, |oldValues|)) ==>
         NoWorse(pairs, qs, DifferCost(newItems, oldValues, shape, encode))
  }

  /**
   `pairs` is what the alignment chose for the rows neither locked nor anchored.
   Changing as few fields as possible comes first, moving rows as little as possible second.
   */
  method MatchRows(newItems: seq<Value>, oldValues: seq<Value>, shape: Value, encode: Encoder, locked: Option<seq<int>>)
    returns (matches: seq<int>, ghost pairs: seq<(nat, nat)>)
    requires FitsMachine(|newItems|, |oldValues|, shape)
    ensures |matches| == |newItems| && InRange(matches, |oldValues|) && Distinct(matches)
    ensures Count(Flags(matches)) == Fewer(|newItems|, |oldValues|)
    ensures forall i :: 0 <= i < |newItems| && LockOf(locked, |oldValues|, i) >= 0 ==> matches[i] == LockOf(locked, |oldValues|, i)
    ensures
      var newKeys, oldKeys := ItemKeys(newItems, shape, encode), ItemKeys(oldValues, shape, encode);
      var locks := Locks(locked, |newItems|, |oldValues|);
      forall i: nat, j: nat :: Twin(newKeys, oldKeys, OpenNew(locks), OpenOld(locks, |oldKeys|), i, j) ==> matches[i] == j
    ensures BestMatch(newItems, oldValues, shape, encode, locked, matches, pairs)
    ensures locked.None? && ItemKeys(newItems, shape, encode) == ItemKeys(oldValues, shape, encode) ==>
      forall i :: 0 <= i < |matches| ==> matches[i] == i
  {
    var n, m := |newItems|, |oldValues|;
    var newKeys, oldKeys := ItemKeys(newItems, shape, encode), ItemKeys(oldValues, shape, encode);
    ghost var settled := Settled(newItems, oldValues, shape, encode, locked);
    var rows := KeepLocks(n, m, locked);
    assert rows[..] == Locks(locked, n, m);
    AnchoredDistinct(newKeys, oldKeys, rows[..]);
    var chosen: seq<(nat, nat)> := [];
    if n == 0 || m == 0 {
      NothingToAnchor(newKeys, oldKeys, rows[..]);
      CompletedByNone(settled);
      EmptyIsBest(LeftNew(settled), LeftOld(settled, m), RowCost(newItems, oldValues, shape, encode));
    } else {
      chosen := AnchorAndAlign(newItems, oldValues, shape, encode, rows, newKeys, oldKeys);
    }
    matches, pairs := rows[..], chosen;
    Conclude(newItems, oldValues, shape, encode, locked, pairs);
  }

  /** The anchors, then the alignment of what they leave. */
  method AnchorAndAlign(newItems: seq<Value>, oldValues: seq<Value>, shape: Value, encode: Encoder, rows: array<int>, newKeys: seq<Key>, oldKeys: seq<Key>)
    returns (pairs: seq<(nat, nat)>)
    requires FitsMachine(|newItems|, |oldValues|, shape)
    requires rows.Length == |newKeys| == |newItems| && |oldKeys| == |oldValues|
    requires Distinct(rows[..]) && InRange(rows[..], |oldKeys|)
    modifies rows
    ensures
      var anchored := Anchored(newKeys, oldKeys, old(rows[..]));
      && rows[..] == Completed(anchored, pairs)
      && Best(pairs, LeftNew(anchored), LeftOld(anchored, |oldKeys|), RowCost(newItems, oldValues, shape, encode))
  {
    var taken := MarkTaken(rows, |oldKeys|);
    Anchor(newKeys, oldKeys, rows, taken);
    ghost var anchored := rows[..];
    var given := seq(rows.Length, i requires 0 <= i < rows.Length reads rows => rows[i] >= 0);
    assert given == Flags(anchored);
    assert taken[..] == TakenBy(anchored, |oldKeys|);
    var leftNew := CollectUnset(given);
    var leftOld := CollectUnset(taken[..]);
    pairs := [];
    CompletedByNone(anchored);
    if leftNew == [] || leftOld == [] {
      EmptyIsBest(leftNew, leftOld, RowCost(newItems, oldValues, shape, encode));
      return;
    }
    pairs := AlignLeftovers(newItems, oldValues, shape, encode, anchored, leftNew, leftOld);
    WritePairs(rows, pairs, anchored, |oldKeys|);
  }

  lemma {:induction false} Conclude(newItems: seq<Value>, oldValues: seq<Value>, shape: Value, encode: Encoder, locked: Option<seq<int>>, pairs: seq<(nat, nat)>)
    requires
      var settled := Settled(newItems, oldValues, shape, encode, locked);
      Best(pairs, LeftNew(settled), LeftOld(settled, |oldValues|), RowCost(newItems, oldValues, shape, encode))
    requires Distinct(Locks(locked, |newItems|, |oldValues|)) && InRange(Locks(locked, |newItems|, |oldValues|), |oldValues|)
    ensures
      var settled := Settled(newItems, oldValues, shape, encode, locked);
      var matches := Completed(settled, pairs);
      && InRange(matches, |oldValues|) && Distinct(matches)
      && Count(Flags(matches)) == Fewer(|newItems|, |oldValues|)
      && forall qs :: InOrder(qs, LeftNew(settled), LeftOld(settled, |oldValues|)) ==>
           NoWorse(pairs, qs, DifferCost(newItems, oldValues, shape, encode))
    ensures
      var matches := Completed(Settled(newItems, oldValues, shape, encode, locked), pairs);
      var newKeys, oldKeys := ItemKeys(newItems, shape, encode), ItemKeys(oldValues, shape, encode);
      var locks := Locks(locked, |newItems|, |oldValues|);
      && (forall i :: 0 <= i < |newItems| && LockOf(locked, |oldValues|, i) >= 0 ==> matches[i] == LockOf(locked, |oldValues|, i))
      && (forall i: nat, j: nat :: Twin(newKeys, oldKeys, OpenNew(locks), OpenOld(locks, |oldKeys|), i, j) ==> matches[i] == j)
      && (locked.None? && newKeys == oldKeys ==> forall i :: 0 <= i < |matches| ==> matches[i] == i)
  {
    var newKeys, oldKeys := ItemKeys(newItems, shape, encode), ItemKeys(oldValues, shape, encode);
    var locks := Locks(locked, |newItems|, |oldValues|);
    var settled := Settled(newItems, oldValues, shape, encode, locked);
    AnchoredDistinct(newKeys, oldKeys, locks);
    CompletedPairsAll(settled, |oldValues|, pairs);
    forall qs | InOrder(qs, LeftNew(settled), LeftOld(settled, |oldValues|))
      ensures NoWorse(pairs, qs, DifferCost(newItems, oldValues, shape, encode))
    {
      BestIsLexicographic(newItems, oldValues, shape, encode, settled, pairs, qs);
    }
    forall i | 0 <= i < |newItems| && LockOf(locked, |oldValues|, i) >= 0 ensures settled[i] == LockOf(locked, |oldValues|, i) {
      assert settled[i] == AnchorOf(newKeys, oldKeys, locks, i);
    }
    forall i: nat, j: nat | Twin(newKeys, oldKeys, OpenNew(locks), OpenOld(locks, |oldKeys|), i, j) ensures settled[i] == j {
      TwinsAnchor(newKeys, oldKeys, locks, i, j);
    }
    if locked.None? && newKeys == oldKeys {
      assert locks == seq(|newKeys|, _ => -1);
      forall i | 0 <= i < |newKeys| ensures Completed(settled, pairs)[i] == i {
        SameKeysStay(newKeys, settled, pairs, i);
      }
    }
  }
}
