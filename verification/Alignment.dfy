/**
 Minimum-cost in-order alignment of two ordered lists (internal/dataapi/rowmatch.go).

 Every entry of the shorter list is seated at an entry of the longer one, both kept in order.
 `Align` fills the source's two tables backwards and walks them forwards; its contract says the
 walk is the cheapest seating of all, and the earliest one among the cheapest.
 */
module Alignment {

  /** The cost of a cell no seating can leave, as the source writes it. */
  const INF: int := 0x4000_0000_0000_0000

  /** The largest value of the source's machine integer. */
  const MAX_INT: int := 0x7FFF_FFFF_FFFF_FFFF

  type Cost = (nat, nat) -> nat

  function Min(a: int, b: int): int {
    if a <= b then a else b
  }

  /** How many pairs two lists of these lengths make. */
  function Fewer(a: nat, b: nat): nat {
    if a <= b then a else b
  }

  ghost predicate Increasing(xs: seq<nat>) {
    forall a, b :: 0 <= a < b < |xs| ==> xs[a] < xs[b]
  }

  /** `seats` puts the entries of short from `i` on at positions of long from `j` on, in order. */
  ghost predicate Seating(short: seq<nat>, long: seq<nat>, i: nat, j: nat, seats: seq<nat>) {
    && i + |seats| == |short|
    && Increasing(seats)
    && forall k :: 0 <= k < |seats| ==> j <= seats[k] < |long|
  }

  /** What a seating of short[i..] costs. */
  ghost function Total(short: seq<nat>, long: seq<nat>, cost: Cost, i: nat, seats: seq<nat>): nat
    requires i + |seats| == |short|
    requires forall k :: 0 <= k < |seats| ==> seats[k] < |long|
    decreases |seats|
  {
    if seats == [] then 0
    else cost(short[i], long[seats[0]]) + Total(short, long, cost, i + 1, seats[1..])
  }

  /** Lexicographic order of two sequences of one length. */
  ghost predicate LexLeq(p: seq<nat>, q: seq<nat>)
    requires |p| == |q|
  {
    p == [] || p[0] < q[0] || (p[0] == q[0] && LexLeq(p[1..], q[1..]))
  }

  /** The entry the table ends up holding at (i, j). */
  ghost function Cell(short: seq<nat>, long: seq<nat>, cost: Cost, i: nat, j: nat): int
    requires i <= |short| && j <= |long|
    decreases |long| - j
  {
    if i == |short| then 0
    else if j == |long| then INF
    else Min(cost(short[i], long[j]) + Cell(short, long, cost, i + 1, j + 1), Cell(short, long, cost, i, j + 1))
  }

  /** The tie rule: a pair that costs no more than skipping it is taken. */
  ghost predicate Takes(short: seq<nat>, long: seq<nat>, cost: Cost, i: nat, j: nat)
    requires i < |short| && j < |long|
  {
    cost(short[i], long[j]) + Cell(short, long, cost, i + 1, j + 1) <= Cell(short, long, cost, i, j + 1)
  }

  /** The seats a walk from (i, j) takes. */
  ghost function Walk(short: seq<nat>, long: seq<nat>, cost: Cost, i: nat, j: nat): seq<nat>
    requires i <= |short| && j <= |long|
    decreases |long| - j
  {
    if i == |short| || j == |long| then []
    else if Takes(short, long, cost, i, j) then [j] + Walk(short, long, cost, i + 1, j + 1)
    else Walk(short, long, cost, i, j + 1)
  }

  /** `pairs` pairs of at most `bound` each. */
  function Budget(pairs: nat, bound: nat): nat {
    if pairs == 0 then 0 else bound + Budget(pairs - 1, bound)
  }

  lemma {:induction false} BudgetIsProduct(pairs: nat, bound: nat)
    ensures Budget(pairs, bound) == pairs * bound
  {
    if pairs > 0 {
      BudgetIsProduct(pairs - 1, bound);
    }
  }

  lemma {:induction false} BudgetGrows(a: nat, b: nat, bound: nat)
    requires a <= b
    ensures Budget(a, bound) <= Budget(b, bound)
    decreases b
  {
    if a < b {
      BudgetGrows(a, b - 1, bound);
    }
  }

  /** Costs are small enough that a whole seating stays below the infeasible mark. */
  ghost predicate Bounded(short: seq<nat>, long: seq<nat>, cost: Cost, bound: nat) {
    && Budget(|short|, bound) < INF
    && forall a, b :: 0 <= a < |short| && 0 <= b < |long| ==> cost(short[a], long[b]) <= bound
  }

  /** A cell with too few positions left is exactly INF; any other stays below it. */
  lemma {:induction false} CellRange(short: seq<nat>, long: seq<nat>, cost: Cost, bound: nat, i: nat, j: nat)
    requires i <= |short| && j <= |long|
    requires Bounded(short, long, cost, bound)
    ensures |short| - i > |long| - j ==> Cell(short, long, cost, i, j) == INF
    ensures |short| - i <= |long| - j ==> 0 <= Cell(short, long, cost, i, j) <= Budget(|short| - i, bound)
    ensures Cell(short, long, cost, i, j) == INF || 0 <= Cell(short, long, cost, i, j) < INF
    decreases |long| - j
  {
    BudgetGrows(|short| - i, |short|, bound);
    if i == |short| {
    } else if j == |long| {
    } else {
      CellRange(short, long, cost, bound, i + 1, j + 1);
      CellRange(short, long, cost, bound, i, j + 1);
    }
  }

  /** With no position to spare the pair has to be taken. */
  lemma {:induction false} TakesWhenTight(short: seq<nat>, long: seq<nat>, cost: Cost, bound: nat, i: nat, j: nat)
    requires i < |short| && j < |long| && |short| - i == |long| - j
    requires Bounded(short, long, cost, bound)
    ensures Takes(short, long, cost, i, j)
  {
    CellRange(short, long, cost, bound, i + 1, j + 1);
    CellRange(short, long, cost, bound, i, j + 1);
    BudgetGrows(|short| - i, |short|, bound);
  }

  /** The walk is a seating and costs what the table says. */
  lemma {:induction false} WalkSeats(short: seq<nat>, long: seq<nat>, cost: Cost, bound: nat, i: nat, j: nat)
    requires i <= |short| && j <= |long| && |short| - i <= |long| - j
    requires Bounded(short, long, cost, bound)
    ensures var w := Walk(short, long, cost, i, j);
      Seating(short, long, i, j, w) && Total(short, long, cost, i, w) == Cell(short, long, cost, i, j)
    decreases |long| - j
  {
    if i < |short| {
      if |short| - i == |long| - j {
        TakesWhenTight(short, long, cost, bound, i, j);
      }
      if Takes(short, long, cost, i, j) {
        WalkSeats(short, long, cost, bound, i + 1, j + 1);
        assert ([j] + Walk(short, long, cost, i + 1, j + 1))[1..] == Walk(short, long, cost, i + 1, j + 1);
      } else {
        WalkSeats(short, long, cost, bound, i, j + 1);
      }
    }
  }

  /** No seating is cheaper than the walk, and none as cheap comes earlier. */
  lemma {:induction false} WalkIsBest(short: seq<nat>, long: seq<nat>, cost: Cost, bound: nat, i: nat, j: nat, q: seq<nat>)
    requires i <= |short| && j <= |long|
    requires Bounded(short, long, cost, bound)
    requires Seating(short, long, i, j, q)
    ensures |short| - i <= |long| - j
    ensures Cell(short, long, cost, i, j) <= Total(short, long, cost, i, q)
    ensures |Walk(short, long, cost, i, j)| == |q|
    ensures Total(short, long, cost, i, q) == Cell(short, long, cost, i, j) ==> LexLeq(Walk(short, long, cost, i, j), q)
    decreases |long| - j
  {
    if i < |short| {
      assert j <= q[0] < |long|;
      if q[0] == j {
        WalkIsBest(short, long, cost, bound, i + 1, j + 1, q[1..]);
        if !Takes(short, long, cost, i, j) {
          if |short| - i == |long| - j {
            TakesWhenTight(short, long, cost, bound, i, j);
          }
          WalkSeats(short, long, cost, bound, i, j + 1);
        } else {
          assert ([j] + Walk(short, long, cost, i + 1, j + 1))[1..] == Walk(short, long, cost, i + 1, j + 1);
        }
      } else {
        WalkIsBest(short, long, cost, bound, i, j + 1, q);
        if Takes(short, long, cost, i, j) {
          WalkSeats(short, long, cost, bound, i + 1, j + 1);
        }
      }
    }
  }

  /** Seats written out as pairs, the shorter list's entry first unless flipped. */
  ghost function PairsOf(short: seq<nat>, long: seq<nat>, seats: seq<nat>, flipped: bool): (ps: seq<(nat, nat)>)
    requires |seats| <= |short|
    requires forall k :: 0 <= k < |seats| ==> seats[k] < |long|
    ensures |ps| == |seats|
  {
    seq(|seats|, k requires 0 <= k < |seats| =>
      if flipped then (long[seats[k]], short[k]) else (short[k], long[seats[k]]))
  }

  /** The tables the source fills, each cell written from the two after it. */
  ghost predicate Filled(short: seq<nat>, long: seq<nat>, cost: Cost, table: array2<int>, takeHere: array2<bool>, i: nat, j: nat)
    requires i <= |short| && j <= |long|
    requires table.Length0 == takeHere.Length0 == |short| + 1
    requires table.Length1 == takeHere.Length1 == |long| + 1
    reads table, takeHere
  {
    && table[i, j] == Cell(short, long, cost, i, j)
    && (i < |short| && j < |long| ==> takeHere[i, j] == Takes(short, long, cost, i, j))
  }

  /** The backward pass. The assertion on `take` says the sum fits the machine integer. */
  method Fill(short: seq<nat>, long: seq<nat>, cost: Cost, ghost bound: nat)
    returns (table: array2<int>, takeHere: array2<bool>)
    requires Bounded(short, long, cost, bound)
    ensures fresh(table) && fresh(takeHere)
    ensures table.Length0 == takeHere.Length0 == |short| + 1
    ensures table.Length1 == takeHere.Length1 == |long| + 1
    ensures forall a, b :: 0 <= a <= |short| && 0 <= b <= |long| ==> Filled(short, long, cost, table, takeHere, a, b)
  {
    var s, l := |short|, |long|;
    table := new int[s + 1, l + 1]((_, _) => INF);
    takeHere := new bool[s + 1, l + 1]((_, _) => false);
    for j := 0 to l + 1
      invariant forall b :: 0 <= b < j ==> table[s, b] == 0
      invariant forall a, b :: 0 <= a < s && 0 <= b <= l ==> table[a, b] == INF
      invariant forall a, b :: 0 <= a <= s && 0 <= b <= l ==> !takeHere[a, b]
    {
      table[s, j] := 0;
    }
    for i := s downto 0
      invariant forall a, b :: i <= a <= s && 0 <= b <= l ==> Filled(short, long, cost, table, takeHere, a, b)
      invariant forall a, b :: 0 <= a < i && 0 <= b <= l ==> table[a, b] == INF && !takeHere[a, b]
    {
      label before:
      FillRow(short, long, cost, bound, table, takeHere, i);
      forall a, b | i < a <= s && 0 <= b <= l ensures Filled(short, long, cost, table, takeHere, a, b) {
        assert old@before(Filled(short, long, cost, table, takeHere, a, b));
      }
    }
  }

  /** One row, from the right, out of the finished row below it. */
  method FillRow(short: seq<nat>, long: seq<nat>, cost: Cost, ghost bound: nat, table: array2<int>, takeHere: array2<bool>, i: nat)
    requires i < |short|
    requires Bounded(short, long, cost, bound)
    requires table.Length0 == takeHere.Length0 == |short| + 1
    requires table.Length1 == takeHere.Length1 == |long| + 1
    requires forall a, b :: a == i + 1 && 0 <= b <= |long| ==> Filled(short, long, cost, table, takeHere, a, b)
    requires forall b :: 0 <= b <= |long| ==> table[i, b] == INF && !takeHere[i, b]
    modifies table, takeHere
    ensures forall b :: 0 <= b <= |long| ==> Filled(short, long, cost, table, takeHere, i, b)
    ensures forall a, b :: 0 <= a <= |short| && a != i && 0 <= b <= |long| ==>
      table[a, b] == old(table[a, b]) && takeHere[a, b] == old(takeHere[a, b])
  {
    ghost var below := i + 1;
    for j := |long| downto 0
      invariant forall b :: j <= b <= |long| ==> Filled(short, long, cost, table, takeHere, i, b)
      invariant forall b :: 0 <= b < j ==> !takeHere[i, b]
      invariant forall b :: 0 <= b < |long| ==> table[i, b] == INF || j <= b
      invariant forall a, b :: 0 <= a <= |short| && a != i && 0 <= b <= |long| ==>
        table[a, b] == old(table[a, b]) && takeHere[a, b] == old(takeHere[a, b])
    {
      label cell:
      assert old(Filled(short, long, cost, table, takeHere, below, j + 1));
      assert Filled(short, long, cost, table, takeHere, i, j + 1);
      var take := cost(short[i], long[j]) + table[i + 1, j + 1];
      var skip := table[i, j + 1];
      assert 0 <= take <= MAX_INT by { SumFits(short, long, cost, bound, i, j); }
      if take <= skip {
        table[i, j] := take;
        takeHere[i, j] := true;
      } else {
        table[i, j] := skip;
      }
      forall b | j < b <= |long| ensures Filled(short, long, cost, table, takeHere, i, b) {
        assert old@cell(Filled(short, long, cost, table, takeHere, i, b));
      }
    }
  }

  lemma {:induction false} SumFits(short: seq<nat>, long: seq<nat>, cost: Cost, bound: nat, i: nat, j: nat)
    requires i < |short| && j < |long|
    requires Bounded(short, long, cost, bound)
    ensures 0 <= cost(short[i], long[j]) + Cell(short, long, cost, i + 1, j + 1) <= MAX_INT
  {
    assert cost(short[i], long[j]) <= bound;
    CellRange(short, long, cost, bound, i + 1, j + 1);
    assert Budget(1, bound) <= Budget(|short|, bound) by { BudgetGrows(1, |short|, bound); }
  }

  lemma {:induction false} FirstSeat(seats: seq<nat>, i: nat, j: nat, rest: seq<nat>)
    requires i <= |seats| && seats[i..] == [j] + rest
    ensures i < |seats| && seats[i] == j && seats[i + 1..] == rest
  {
    assert seats[i + 1..] == seats[i..][1..];
  }

  /**
   The dynamic program of the source: the tables, then one walk over them.
   `seats` is where each entry of the shorter list landed.
   */
  method Align(short: seq<nat>, long: seq<nat>, cost: Cost, flipped: bool, ghost bound: nat)
    returns (pairs: seq<(nat, nat)>, ghost seats: seq<nat>)
    requires |short| <= |long|
    requires Bounded(short, long, cost, bound)
    ensures Seating(short, long, 0, 0, seats)
    ensures pairs == PairsOf(short, long, seats, flipped)
    ensures forall q :: Seating(short, long, 0, 0, q) ==>
      || Total(short, long, cost, 0, seats) < Total(short, long, cost, 0, q)
      || (Total(short, long, cost, 0, seats) == Total(short, long, cost, 0, q) && LexLeq(seats, q))
  {
    var s, l := |short|, |long|;
    var table, takeHere := Fill(short, long, cost, bound);
    WalkSeats(short, long, cost, bound, 0, 0);
    seats := Walk(short, long, cost, 0, 0);
    ghost var all := PairsOf(short, long, seats, flipped);
    pairs := [];
    var i, j := 0, 0;
    while i < s && j < l
      invariant 0 <= i <= s && 0 <= j <= l
      invariant seats[i..] == Walk(short, long, cost, i, j)
      invariant pairs == all[..i]
      modifies {}
      decreases l - j
    {
      assert Filled(short, long, cost, table, takeHere, i, j);
      if takeHere[i, j] {
        FirstSeat(seats, i, j, Walk(short, long, cost, i + 1, j + 1));
        assert all[i] == if flipped then (long[j], short[i]) else (short[i], long[j]);
        pairs := pairs + [if flipped then (long[j], short[i]) else (short[i], long[j])];
        i := i + 1;
      }
      j := j + 1;
    }
    assert |seats[i..]| == 0;
    forall q | Seating(short, long, 0, 0, q)
      ensures || Total(short, long, cost, 0, seats) < Total(short, long, cost, 0, q)
              || (Total(short, long, cost, 0, seats) == Total(short, long, cost, 0, q) && LexLeq(seats, q))
    {
      WalkIsBest(short, long, cost, bound, 0, 0, q);
    }
  }

  /** A complete pairing that keeps both lists in order: what `AlignInOrder` chooses among. */
  ghost predicate InOrder(pairs: seq<(nat, nat)>, newIdx: seq<nat>, oldIdx: seq<nat>) {
    && |pairs| == Fewer(|newIdx|, |oldIdx|)
    && (forall k :: 0 <= k < |pairs| ==> pairs[k].0 in newIdx && pairs[k].1 in oldIdx)
    && Increasing(News(pairs))
    && Increasing(Olds(pairs))
  }

  function News(pairs: seq<(nat, nat)>): (r: seq<nat>)
    ensures |r| == |pairs|
  {
    seq(|pairs|, k requires 0 <= k < |pairs| => pairs[k].0)
  }

  function Olds(pairs: seq<(nat, nat)>): (r: seq<nat>)
    ensures |r| == |pairs|
  {
    seq(|pairs|, k requires 0 <= k < |pairs| => pairs[k].1)
  }

  ghost function PairTotal(pairs: seq<(nat, nat)>, cost: Cost): nat {
    if pairs == [] then 0 else cost(pairs[0].0, pairs[0].1) + PairTotal(pairs[1..], cost)
  }

  /** The rows of the longer list a pairing uses. */
  ghost function LongSide(pairs: seq<(nat, nat)>, newIdx: seq<nat>, oldIdx: seq<nat>): (r: seq<nat>)
    ensures |r| == |pairs|
  {
    if |newIdx| <= |oldIdx| then Olds(pairs) else News(pairs)
  }

  /** `pairs` costs least, and comes first among the pairings that cost as little. */
  ghost predicate Best(pairs: seq<(nat, nat)>, newIdx: seq<nat>, oldIdx: seq<nat>, cost: Cost) {
    && InOrder(pairs, newIdx, oldIdx)
    && forall qs :: InOrder(qs, newIdx, oldIdx) ==>
         || PairTotal(pairs, cost) < PairTotal(qs, cost)
         || (&& PairTotal(pairs, cost) == PairTotal(qs, cost)
             && |pairs| == |qs|
             && LexLeq(LongSide(pairs, newIdx, oldIdx), LongSide(qs, newIdx, oldIdx)))
  }

  /** An increasing choice of as many entries as there are is the whole list. */
  lemma {:induction false} WholeList(xs: seq<nat>, ys: seq<nat>)
    requires Increasing(xs) && Increasing(ys) && |xs| == |ys|
    requires forall k :: 0 <= k < |xs| ==> xs[k] in ys
    ensures xs == ys
  {
    forall k | 0 <= k < |xs| ensures xs[k] == ys[k] {
      AtLeast(xs, ys, k);
      AtMost(xs, ys, k);
    }
  }

  lemma {:induction false} AtLeast(xs: seq<nat>, ys: seq<nat>, k: nat)
    requires Increasing(xs) && Increasing(ys) && k < |xs| <= |ys|
    requires forall k :: 0 <= k < |xs| ==> xs[k] in ys
    ensures ys[k] <= xs[k]
  {
    var at :| 0 <= at < |ys| && ys[at] == xs[k];
    if k > 0 {
      AtLeast(xs, ys, k - 1);
      assert ys[k - 1] <= xs[k - 1] < xs[k];
    }
  }

  lemma {:induction false} AtMost(xs: seq<nat>, ys: seq<nat>, k: nat)
    requires Increasing(xs) && Increasing(ys) && k < |xs| == |ys|
    requires forall k :: 0 <= k < |xs| ==> xs[k] in ys
    ensures xs[k] <= ys[k]
    decreases |xs| - k
  {
    var at :| 0 <= at < |ys| && ys[at] == xs[k];
    if k + 1 < |xs| {
      AtMost(xs, ys, k + 1);
      assert xs[k] < xs[k + 1] <= ys[k + 1];
    }
  }

  /** The seats behind an in-order pairing, and that they cost what it costs. */
  lemma {:induction false} SeatsOf(qs: seq<(nat, nat)>, newIdx: seq<nat>, oldIdx: seq<nat>) returns (q: seq<nat>)
    requires Increasing(newIdx) && Increasing(oldIdx)
    requires InOrder(qs, newIdx, oldIdx)
    ensures |newIdx| <= |oldIdx| ==> Seating(newIdx, oldIdx, 0, 0, q) && qs == PairsOf(newIdx, oldIdx, q, false)
    ensures |newIdx| > |oldIdx| ==> Seating(oldIdx, newIdx, 0, 0, q) && qs == PairsOf(oldIdx, newIdx, q, true)
  {
    if |newIdx| <= |oldIdx| {
      WholeList(News(qs), newIdx);
      q := Positions(Olds(qs), oldIdx);
      forall k | 0 <= k < |qs| ensures qs[k] == (newIdx[k], oldIdx[q[k]]) {
        assert News(qs)[k] == newIdx[k] && Olds(qs)[k] == oldIdx[q[k]];
      }
    } else {
      WholeList(Olds(qs), oldIdx);
      q := Positions(News(qs), newIdx);
      forall k | 0 <= k < |qs| ensures qs[k] == (newIdx[q[k]], oldIdx[k]) {
        assert Olds(qs)[k] == oldIdx[k] && News(qs)[k] == newIdx[q[k]];
      }
    }
  }

  lemma {:induction false} Positions(xs: seq<nat>, ys: seq<nat>) returns (at: seq<nat>)
    requires Increasing(xs) && Increasing(ys)
    requires forall k :: 0 <= k < |xs| ==> xs[k] in ys
    ensures |at| == |xs| && Increasing(at)
    ensures forall k :: 0 <= k < |xs| ==> at[k] < |ys| && ys[at[k]] == xs[k]
  {
    at := [];
    while |at| < |xs|
      invariant |at| <= |xs|
      invariant forall k :: 0 <= k < |at| ==> at[k] < |ys| && ys[at[k]] == xs[k]
    {
      assert xs[|at|] in ys;
      var next: nat :| next < |ys| && ys[next] == xs[|at|];
      at := at + [next];
    }
    forall a, b | 0 <= a < b < |at| ensures at[a] < at[b] {
      assert ys[at[a]] == xs[a] < xs[b] == ys[at[b]];
    }
  }

  lemma {:induction false} TotalOfPairs(short: seq<nat>, long: seq<nat>, seats: seq<nat>, flipped: bool, cost: Cost, given: Cost)
    requires |short| == |seats|
    requires forall k :: 0 <= k < |seats| ==> seats[k] < |long|
    requires forall a, b :: given(a, b) == if flipped then cost(b, a) else cost(a, b)
    ensures PairTotal(PairsOf(short, long, seats, flipped), cost) == Total(short, long, given, 0, seats)
  {
    TotalOfPairsFrom(short, long, seats, flipped, cost, given, 0);
  }

  lemma {:induction false} TotalOfPairsFrom(short: seq<nat>, long: seq<nat>, seats: seq<nat>, flipped: bool, cost: Cost, given: Cost, i: nat)
    requires i <= |short| == |seats|
    requires forall k :: 0 <= k < |seats| ==> seats[k] < |long|
    requires forall a, b :: given(a, b) == if flipped then cost(b, a) else cost(a, b)
    ensures PairTotal(PairsOf(short, long, seats, flipped)[i..], cost) == Total(short, long, given, i, seats[i..])
    decreases |short| - i
  {
    if i < |short| {
      TotalOfPairsFrom(short, long, seats, flipped, cost, given, i + 1);
      var ps := PairsOf(short, long, seats, flipped);
      assert ps[i..][1..] == ps[i + 1..];
      assert seats[i..][1..] == seats[i + 1..];
    }
  }

  /** Earlier seats are earlier rows, because the longer list is increasing. */
  lemma {:induction false} LexOfSeats(long: seq<nat>, p: seq<nat>, q: seq<nat>)
    requires Increasing(long) && |p| == |q|
    requires forall k :: 0 <= k < |p| ==> p[k] < |long| && q[k] < |long|
    requires LexLeq(p, q)
    ensures LexLeq(Rows(long, p), Rows(long, q))
  {
    if p != [] && p[0] == q[0] {
      LexOfSeats(long, p[1..], q[1..]);
      assert Rows(long, p)[1..] == Rows(long, p[1..]);
      assert Rows(long, q)[1..] == Rows(long, q[1..]);
    }
  }

  ghost function Rows(long: seq<nat>, seats: seq<nat>): (r: seq<nat>)
    requires forall k :: 0 <= k < |seats| ==> seats[k] < |long|
    ensures |r| == |seats|
  {
    seq(|seats|, k requires 0 <= k < |seats| => long[seats[k]])
  }

  /** Pairs every entry of the shorter list, whichever of the two that is. */
  method AlignInOrder(newIdx: seq<nat>, oldIdx: seq<nat>, cost: Cost, ghost bound: nat) returns (pairs: seq<(nat, nat)>)
    requires Increasing(newIdx) && Increasing(oldIdx)
    requires Budget(Fewer(|newIdx|, |oldIdx|), bound) < INF
    requires forall a, b :: 0 <= a < |newIdx| && 0 <= b < |oldIdx| ==> cost(newIdx[a], oldIdx[b]) <= bound
    ensures Best(pairs, newIdx, oldIdx, cost)
  {
    ghost var seats;
    if |newIdx| <= |oldIdx| {
      pairs, seats := Align(newIdx, oldIdx, cost, false, bound);
      BestFromSeats(pairs, seats, newIdx, oldIdx, false, cost, cost);
    } else {
      var given: Cost := (a, b) => cost(b, a);
      pairs, seats := Align(oldIdx, newIdx, given, true, bound);
      BestFromSeats(pairs, seats, oldIdx, newIdx, true, cost, given);
    }
  }

  lemma {:induction false} BestFromSeats(pairs: seq<(nat, nat)>, seats: seq<nat>, short: seq<nat>, long: seq<nat>, flipped: bool, cost: Cost, given: Cost)
    requires Increasing(short) && Increasing(long)
    requires if flipped then |short| < |long| else |short| <= |long|
    requires forall a, b :: given(a, b) == if flipped then cost(b, a) else cost(a, b)
    requires Seating(short, long, 0, 0, seats) && pairs == PairsOf(short, long, seats, flipped)
    requires forall q :: Seating(short, long, 0, 0, q) ==>
      || Total(short, long, given, 0, seats) < Total(short, long, given, 0, q)
      || (Total(short, long, given, 0, seats) == Total(short, long, given, 0, q) && LexLeq(seats, q))
    ensures var newIdx, oldIdx := if flipped then long else short, if flipped then short else long;
      Best(pairs, newIdx, oldIdx, cost)
  {
    var newIdx, oldIdx := if flipped then long else short, if flipped then short else long;
    SeatsInOrder(pairs, seats, short, long, flipped);
    forall qs | InOrder(qs, newIdx, oldIdx)
      ensures || PairTotal(pairs, cost) < PairTotal(qs, cost)
              || (&& PairTotal(pairs, cost) == PairTotal(qs, cost)
                  && |pairs| == |qs|
                  && LexLeq(LongSide(pairs, newIdx, oldIdx), LongSide(qs, newIdx, oldIdx)))
    {
      var q := SeatsOf(qs, newIdx, oldIdx);
      NoBetter(seats, q, short, long, flipped, cost, given);
    }
  }

  lemma {:induction false} SeatsInOrder(pairs: seq<(nat, nat)>, seats: seq<nat>, short: seq<nat>, long: seq<nat>, flipped: bool)
    requires Increasing(short) && Increasing(long)
    requires if flipped then |short| < |long| else |short| <= |long|
    requires Seating(short, long, 0, 0, seats) && pairs == PairsOf(short, long, seats, flipped)
    ensures var newIdx, oldIdx := if flipped then long else short, if flipped then short else long;
      InOrder(pairs, newIdx, oldIdx) && LongSide(pairs, newIdx, oldIdx) == Rows(long, seats)
  {
    assert Increasing(Rows(long, seats));
    if flipped {
      assert News(pairs) == Rows(long, seats) && Olds(pairs) == short;
    } else {
      assert Olds(pairs) == Rows(long, seats) && News(pairs) == short;
    }
  }

  lemma {:induction false} NoBetter(seats: seq<nat>, q: seq<nat>, short: seq<nat>, long: seq<nat>, flipped: bool, cost: Cost, given: Cost)
    requires Increasing(short) && Increasing(long)
    requires if flipped then |short| < |long| else |short| <= |long|
    requires forall a, b :: given(a, b) == if flipped then cost(b, a) else cost(a, b)
    requires Seating(short, long, 0, 0, seats) && Seating(short, long, 0, 0, q)
    requires || Total(short, long, given, 0, seats) < Total(short, long, given, 0, q)
             || (Total(short, long, given, 0, seats) == Total(short, long, given, 0, q) && LexLeq(seats, q))
    ensures
      var newIdx, oldIdx := if flipped then long else short, if flipped then short else long;
      var pairs, qs := PairsOf(short, long, seats, flipped), PairsOf(short, long, q, flipped);
      || PairTotal(pairs, cost) < PairTotal(qs, cost)
      || (&& PairTotal(pairs, cost) == PairTotal(qs, cost)
          && |pairs| == |qs|
          && LexLeq(LongSide(pairs, newIdx, oldIdx), LongSide(qs, newIdx, oldIdx)))
  {
    TotalOfPairs(short, long, seats, flipped, cost, given);
    TotalOfPairs(short, long, q, flipped, cost, given);
    SeatsInOrder(PairsOf(short, long, seats, flipped), seats, short, long, flipped);
    SeatsInOrder(PairsOf(short, long, q, flipped), q, short, long, flipped);
    if LexLeq(seats, q) {
      LexOfSeats(long, seats, q);
    }
  }
}
