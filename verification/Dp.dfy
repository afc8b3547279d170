/** The exact assigner: a table of the best pruning for every number of partitions and every budget, in 32-bit
    integers, and a walk back through it that picks the statistics. */
module Dp {
  import opened OptionTable

  const INT32_LIMIT := 0x8000_0000

  /** The value an int32 holds after a sum. */
  function Wrap(x: int): (y: int)
    ensures -INT32_LIMIT <= y < INT32_LIMIT
    ensures -INT32_LIMIT <= x < INT32_LIMIT ==> y == x
  {
    (x + INT32_LIMIT) % (2 * INT32_LIMIT) - INT32_LIMIT
  }

  // ---------- rows of the table ----------

  function Add(v: seq<int>, p: int): (w: seq<int>)
    ensures |w| == |v|
  {
    seq(|v|, b requires 0 <= b < |v| => Wrap(v[b] + p))
  }

  /** Shift by `n` places to the right, and in again on the left. */
  function Roll(v: seq<int>, n: int): (w: seq<int>)
    requires v != []
    ensures |w| == |v|
  {
    seq(|v|, b requires 0 <= b < |v| => v[(b - n) % |v|])
  }

  /** Zeroes before place `n`, which counts from the end when it is negative. */
  function ZeroBefore(v: seq<int>, n: int): (w: seq<int>)
    ensures |w| == |v|
  {
    seq(|v|, b requires 0 <= b < |v| => if b < (if n >= 0 then n else |v| + n) then 0 else v[b])
  }

  function Maximum(v: seq<int>, w: seq<int>): (m: seq<int>)
    requires |v| == |w|
    ensures |m| == |v|
  {
    seq(|v|, b requires 0 <= b < |v| => if v[b] < w[b] then w[b] else v[b])
  }

  /** The row `previous` with one more choice added. */
  function WithChoice(previous: seq<int>, size: int, pruning: int): (w: seq<int>)
    requires previous != []
    ensures |w| == |previous|
  {
    ZeroBefore(Roll(Add(previous, pruning), size), size)
  }

  lemma WithChoiceAt(previous: seq<int>, size: nat, pruning: int, b: nat)
    requires b < |previous|
    ensures WithChoice(previous, size, pruning)[b] == if b < size then 0 else Wrap(previous[b - size] + pruning)
  {
    if size <= b {
      assert (b - size) % |previous| == b - size;
    }
  }

  /** No entry of the table is negative, as each row starts from zeroes. */
  predicate IsRow(v: seq<int>, width: nat) {
    |v| == width && forall b :: 0 <= b < width ==> 0 <= v[b] < INT32_LIMIT
  }

  /** A choice makes the row no smaller. */
  lemma StaysRow(row: seq<int>, previous: seq<int>, size: int, pruning: int)
    requires previous != [] && IsRow(row, |previous|) && IsRow(previous, |previous|)
    ensures IsRow(Maximum(row, WithChoice(previous, size, pruning)), |previous|)
  {
    hide Wrap;
    var w := WithChoice(previous, size, pruning);
    forall b | 0 <= b < |w| ensures w[b] < INT32_LIMIT {
    }
    hide WithChoice;
  }

  // ---------- the best pruning ----------

  /** The best that the first `i` partitions can prune within `b`, in unbounded integers. */
  function Best(t: Table, empty: int, i: nat, b: nat): (v: nat)
    requires t.Natural(empty) && i <= |t.rows|
    decreases i, t.stats + 1
  {
    if i == 0 then 0 else BestWith(t, empty, i, b, t.stats)
  }

  /** The same with only the first `k` statistics for the last of these partitions. */
  function BestWith(t: Table, empty: int, i: nat, b: nat, k: nat): (v: nat)
    requires t.Natural(empty) && 1 <= i <= |t.rows| && 1 <= k <= t.stats
    decreases i, k
  {
    if k == 1 then Best(t, empty, i - 1, b) + t.Pruning(i - 1, 0)
    else
      var rest := BestWith(t, empty, i, b, k - 1);
      var size := t.Size(i - 1, k - 1, empty);
      if size > b then rest
      else
        var taken := Best(t, empty, i - 1, b - size) + t.Pruning(i - 1, k - 1);
        if taken > rest then taken else rest
  }

  lemma {:induction false} BestWithBounds(t: Table, empty: int, i: nat, b: nat, k: nat, h: nat)
    requires t.Natural(empty) && 1 <= i <= |t.rows| && h < k <= t.stats && t.Size(i - 1, h, empty) <= b
    ensures BestWith(t, empty, i, b, k) >= Best(t, empty, i - 1, b - t.Size(i - 1, h, empty)) + t.Pruning(i - 1, h)
    decreases k
  {
    if h < k - 1 {
      BestWithBounds(t, empty, i, b, k - 1, h);
    }
  }

  lemma {:induction false} BestWithTaken(t: Table, empty: int, i: nat, b: nat, k: nat) returns (h: nat)
    requires t.Natural(empty) && 1 <= i <= |t.rows| && 1 <= k <= t.stats
    ensures h < k && t.Size(i - 1, h, empty) <= b
    ensures BestWith(t, empty, i, b, k) == Best(t, empty, i - 1, b - t.Size(i - 1, h, empty)) + t.Pruning(i - 1, h)
    decreases k
  {
    if k == 1 {
      h := 0;
    } else if BestWith(t, empty, i, b, k) == BestWith(t, empty, i, b, k - 1) {
      h := BestWithTaken(t, empty, i, b, k - 1);
    } else {
      h := k - 1;
    }
  }

  /** No assignment within the budget prunes more. */
  lemma {:induction false} BestIsBound(t: Table, empty: int, f: seq<nat>, b: nat)
    requires t.Natural(empty) && Assigns(t, f) && TotalSize(t, f, empty) <= b
    ensures TotalPruning(t, f) <= Best(t, empty, |f|, b)
    decreases |f|
  {
    if f != [] {
      var i := |f|;
      var size := t.Size(i - 1, f[i - 1], empty);
      SizesNatural(t, f[..i - 1], empty);
      BestIsBound(t, empty, f[..i - 1], b - size);
      BestWithBounds(t, empty, i, b, t.stats, f[i - 1]);
    }
  }

  /** Some assignment within the budget prunes as much. */
  lemma {:induction false} BestIsReached(t: Table, empty: int, i: nat, b: nat) returns (f: seq<nat>)
    requires t.Natural(empty) && i <= |t.rows|
    ensures |f| == i && Assigns(t, f) && TotalSize(t, f, empty) <= b && TotalPruning(t, f) == Best(t, empty, i, b)
    decreases i
  {
    if i == 0 {
      f := [];
    } else {
      var h := BestWithTaken(t, empty, i, b, t.stats);
      var g := BestIsReached(t, empty, i - 1, b - t.Size(i - 1, h, empty));
      f := g + [h];
      assert f[..i - 1] == g;
    }
  }

  /** `v` is the most that assignments of the first `i` partitions with total size at most `b` can prune. */
  ghost predicate IsOptimum(t: Table, empty: int, i: nat, b: nat, v: int)
    requires t.Valid() && i <= |t.rows|
  {
    && (exists f: seq<nat> :: |f| == i && Assigns(t, f) && TotalSize(t, f, empty) <= b && TotalPruning(t, f) == v)
    && forall f: seq<nat> :: |f| == i && Assigns(t, f) && TotalSize(t, f, empty) <= b ==> TotalPruning(t, f) <= v
  }

  lemma BestIsOptimum(t: Table, empty: int, i: nat, b: nat)
    requires t.Natural(empty) && i <= |t.rows|
    ensures IsOptimum(t, empty, i, b, Best(t, empty, i, b))
  {
    var f := BestIsReached(t, empty, i, b);
    forall g: seq<nat> | |g| == i && Assigns(t, g) && TotalSize(t, g, empty) <= b
      ensures TotalPruning(t, g) <= Best(t, empty, i, b)
    {
      BestIsBound(t, empty, g, b);
    }
  }

  /** More budget never prunes less. */
  lemma BestGrowsWithBudget(t: Table, empty: int, i: nat, b: nat, c: nat)
    requires t.Natural(empty) && i <= |t.rows| && b <= c
    ensures Best(t, empty, i, b) <= Best(t, empty, i, c)
  {
    var f := BestIsReached(t, empty, i, b);
    BestIsBound(t, empty, f, c);
  }

  lemma {:induction false} BestGrows(t: Table, empty: int, i: nat, b: nat, j: nat, c: nat)
    requires t.Natural(empty) && i <= j <= |t.rows| && b <= c
    ensures Best(t, empty, i, b) <= Best(t, empty, j, c)
    decreases j
  {
    if i == j {
      BestGrowsWithBudget(t, empty, i, b, c);
    } else {
      BestGrows(t, empty, i, b, j - 1, c);
      BestWithBounds(t, empty, j, c, t.stats, 0);
    }
  }

  // ---------- filling the table ----------

  /** Every statistic is listed; the order is that of a set. */
  ghost predicate Lists(order: seq<nat>, stats: nat) {
    (forall j :: 0 <= j < |order| ==> order[j] < stats) && forall k :: 0 <= k < stats ==> k in order
  }

  ghost predicate RowIsBest(t: Table, empty: int, i: nat, row: seq<int>)
    requires t.Natural(empty) && i <= |t.rows|
  {
    forall b :: 0 <= b < |row| ==> row[b] == Best(t, empty, i, b)
  }

  /** `row` has the best of the listed choices so far, or 0. */
  ghost predicate RowSoFar(t: Table, empty: int, i: nat, row: seq<int>, listed: seq<nat>)
    requires t.Natural(empty) && 1 <= i <= |t.rows|
  {
    forall b :: 0 <= b < |row| ==>
      && 0 <= row[b] <= Best(t, empty, i, b)
      && forall k :: k in listed && k < t.stats && t.Size(i - 1, k, empty) <= b ==>
        row[b] >= Best(t, empty, i - 1, b - t.Size(i - 1, k, empty)) + t.Pruning(i - 1, k)
  }

  lemma BestIsAll(t: Table, empty: int, i: nat, b: nat)
    requires t.Natural(empty) && 1 <= i <= |t.rows|
    ensures Best(t, empty, i, b) == BestWith(t, empty, i, b, t.stats)
  {
  }

  lemma NextChoice(t: Table, empty: int, i: nat, previous: seq<int>, row: seq<int>, listed: seq<nat>, k: nat)
    requires t.Natural(empty) && 1 <= i <= |t.rows| && k < t.stats && |row| == |previous| > 0
    requires RowIsBest(t, empty, i - 1, previous) && RowSoFar(t, empty, i, row, listed)
    requires Best(t, empty, i, |row| - 1) < INT32_LIMIT
    ensures RowSoFar(t, empty, i,
                     Maximum(row, WithChoice(previous, t.Size(i - 1, k, empty), t.Pruning(i - 1, k))), listed + [k])
  {
    hide Best, BestWith, WithChoice, Wrap;
    var size := t.Size(i - 1, k, empty);
    var candidate := WithChoice(previous, size, t.Pruning(i - 1, k));
    forall b | 0 <= b < |row|
      ensures size > b ==> candidate[b] == 0
      ensures size <= b ==>
        candidate[b] == Best(t, empty, i - 1, b - size) + t.Pruning(i - 1, k) <= Best(t, empty, i, b)
    {
      WithChoiceAt(previous, size, t.Pruning(i - 1, k), b);
      if size <= b {
        BestIsAll(t, empty, i, b);
        BestWithBounds(t, empty, i, b, t.stats, k);
        BestGrowsWithBudget(t, empty, i, b, |row| - 1);
      }
    }
  }

  lemma AllChoices(t: Table, empty: int, i: nat, row: seq<int>, order: seq<nat>)
    requires t.Natural(empty) && 1 <= i <= |t.rows| && RowSoFar(t, empty, i, row, order) && Lists(order, t.stats)
    ensures RowIsBest(t, empty, i, row)
  {
    hide BestWith;
    forall b | 0 <= b < |row| ensures row[b] == Best(t, empty, i, b) {
      var h := BestWithTaken(t, empty, i, b, t.stats);
      assert h in order;
    }
  }

  /** The rows up to `i` hold the best prunings, as far as these fit. */
  ghost predicate TableIsBest(t: Table, empty: int, table: seq<seq<int>>)
    requires t.Natural(empty) && |table| <= |t.rows| + 1
  {
    forall i :: 0 <= i < |table| ==> RowIsBest(t, empty, i, table[i])
  }

  /** One row: the maximum over all statistics. */
  method FillRow(t: Table, empty: int, order: seq<nat>, i: nat, previous: seq<int>) returns (row: seq<int>)
    requires t.Valid() && 1 <= i <= |t.rows| && Lists(order, t.stats)
    requires previous != [] && IsRow(previous, |previous|)
    ensures IsRow(row, |previous|)
    ensures t.Natural(empty) && RowIsBest(t, empty, i - 1, previous) && Best(t, empty, i, |row| - 1) < INT32_LIMIT
      ==> RowIsBest(t, empty, i, row)
  {
    hide WithChoice, Maximum, Best, BestWith, RowIsBest;
    row := seq(|previous|, _ => 0);
    ghost var fits := t.Natural(empty) && RowIsBest(t, empty, i - 1, previous)
      && Best(t, empty, i, |previous| - 1) < INT32_LIMIT;
    for j := 0 to |order|
      invariant IsRow(row, |previous|)
      invariant fits ==> RowSoFar(t, empty, i, row, order[..j])
    {
      var k := order[j];
      if fits {
        NextChoice(t, empty, i, previous, row, order[..j], k);
      }
      assert order[..j + 1] == order[..j] + [k];
      StaysRow(row, previous, t.Size(i - 1, k, empty), t.Pruning(i - 1, k));
      row := Maximum(row, WithChoice(previous, t.Size(i - 1, k, empty), t.Pruning(i - 1, k)));
    }
    assert order[..|order|] == order;
    if fits {
      AllChoices(t, empty, i, row, order);
    }
  }

  /** The table holds the optimum for every number of partitions and every budget exactly when the optimum for all
      partitions and the whole budget fits into 32 bits. */
  method FillTable(t: Table, empty: int, order: seq<nat>, budget: nat) returns (m: array<seq<int>>)
    requires t.Valid() && Lists(order, t.stats)
    ensures fresh(m) && m.Length == |t.rows| + 1
    ensures forall i :: 0 <= i < m.Length ==> IsRow(m[i], budget + 1)
    ensures t.Natural(empty) ==>
      (TableIsBest(t, empty, m[..]) <==> Best(t, empty, |t.rows|, budget) < INT32_LIMIT)
  {
    var width := budget + 1;
    m := new seq<int>[|t.rows| + 1](_ => seq(width, _ => 0));
    ghost var fits := t.Natural(empty) && Best(t, empty, |t.rows|, budget) < INT32_LIMIT;
    for i := 1 to |t.rows| + 1
      invariant forall h :: 0 <= h < m.Length ==> IsRow(m[h], width)
      invariant fits ==> forall h :: 0 <= h < i ==> RowIsBest(t, empty, h, m[h])
    {
      if fits {
        BestGrows(t, empty, i, budget, |t.rows|, budget);
      }
      m[i] := FillRow(t, empty, order, i, m[i - 1]);
    }
    if t.Natural(empty) && TableIsBest(t, empty, m[..]) {
      assert m[..][|t.rows|][budget] == Best(t, empty, |t.rows|, budget);
    }
  }

  /** The table can go wrong: two choices that together prune 2^31. */
  lemma TableOverflows()
    ensures var t := Table([[Choice(0, 0), Choice(1, 0x4000_0000)], [Choice(0, 0), Choice(1, 0x4000_0000)]], 2);
      t.Natural(0) && Best(t, 0, 2, 2) >= INT32_LIMIT
  {
    var t := Table([[Choice(0, 0), Choice(1, 0x4000_0000)], [Choice(0, 0), Choice(1, 0x4000_0000)]], 2);
    BestIsBound(t, 0, [], 0);
    BestWithBounds(t, 0, 1, 1, 2, 1);
    BestWithBounds(t, 0, 2, 2, 2, 1);
  }

  // ---------- walking back ----------

  /** What the choices from partition `i` on add does not depend on the choices before. */
  lemma {:induction false} SameFrom(t: Table, empty: int, f: seq<nat>, g: seq<nat>, i: nat)
    requires t.Valid() && Assigns(t, f) && Assigns(t, g) && i <= |f| == |g| && f[i..] == g[i..]
    ensures TotalSize(t, f, empty) - TotalSize(t, f[..i], empty) == TotalSize(t, g, empty) - TotalSize(t, g[..i], empty)
    ensures TotalPruning(t, f) - TotalPruning(t, f[..i]) == TotalPruning(t, g) - TotalPruning(t, g[..i])
    decreases |f|
  {
    var n := |f|;
    if i < n {
      assert f[n - 1] == f[i..][n - 1 - i] == g[n - 1];
      assert f[..n - 1][i..] == f[i..][..n - 1 - i] == g[..n - 1][i..];
      assert f[..n - 1][..i] == f[..i] && g[..n - 1][..i] == g[..i];
      SameFrom(t, empty, f[..n - 1], g[..n - 1], i);
    } else {
      assert f[..i] == f && g[..i] == g;
    }
  }

  /** `f` is right from partition `i` on: with the best of the first `i` within `left`, it makes the optimum,
      and its size there is what is missing to the first place `start` of that optimum. */
  ghost predicate RightFrom(t: Table, empty: int, start: nat, f: seq<nat>, i: nat, left: nat)
    requires t.Natural(empty)
  {
    && i <= |f| == |t.rows| && Assigns(t, f)
    && TotalSize(t, f, empty) - TotalSize(t, f[..i], empty) + left == start
    && TotalPruning(t, f) - TotalPruning(t, f[..i]) + Best(t, empty, i, left) == Best(t, empty, |t.rows|, start)
  }

  lemma ChoiceIsRight(t: Table, empty: int, start: nat, f: seq<nat>, i: nat, left: nat, k: nat)
    requires t.Natural(empty) && RightFrom(t, empty, start, f, i, left) && i >= 1
    requires k < t.stats && t.Size(i - 1, k, empty) <= left
    requires Best(t, empty, i, left) == Best(t, empty, i - 1, left - t.Size(i - 1, k, empty)) + t.Pruning(i - 1, k)
    ensures RightFrom(t, empty, start, f[i - 1 := k], i - 1, left - t.Size(i - 1, k, empty))
  {
    hide Best, BestWith;
    var g := f[i - 1 := k];
    SameFrom(t, empty, f, g, i);
    assert g[..i][..i - 1] == g[..i - 1] && g[..i][i - 1] == k;
  }

  /** The walk ends with no budget left, and the assignment is optimal and the smallest of the optimal ones. */
  lemma RightIsBest(t: Table, empty: int, budget: nat, start: nat, f: seq<nat>, left: nat)
    requires t.Natural(empty) && RightFrom(t, empty, start, f, 0, left)
    requires start <= budget && Best(t, empty, |t.rows|, start) == Best(t, empty, |t.rows|, budget)
    requires forall b: nat :: b < start ==> Best(t, empty, |t.rows|, b) < Best(t, empty, |t.rows|, budget)
    ensures left == 0 && TotalSize(t, f, empty) == start && IsBestAssignment(t, empty, budget, f)
  {
    assert Best(t, empty, 0, left) == 0;
    assert TotalSize(t, f[..0], empty) == 0 == TotalPruning(t, f[..0]);
    hide Best, BestWith, NotBetter, TotalSize, TotalPruning;
    SizesNatural(t, f, empty);
    BestIsBound(t, empty, f, start - left);
    assert left == 0;
    forall g: seq<nat> | |g| == |t.rows| && Assigns(t, g) && TotalSize(t, g, empty) <= budget
      ensures NotBetter(t, empty, f, g)
    {
      NothingBetter(t, empty, budget, start, f, g);
    }
  }

  lemma NothingBetter(t: Table, empty: int, budget: nat, start: nat, f: seq<nat>, g: seq<nat>)
    requires t.Natural(empty) && Assigns(t, f) && Assigns(t, g) && |g| == |t.rows|
    requires TotalSize(t, f, empty) == start && TotalPruning(t, f) == Best(t, empty, |t.rows|, budget)
    requires forall b: nat :: b < start ==> Best(t, empty, |t.rows|, b) < Best(t, empty, |t.rows|, budget)
    requires TotalSize(t, g, empty) <= budget
    ensures NotBetter(t, empty, f, g)
  {
    hide Best, BestWith, TotalSize, TotalPruning;
    BestIsBound(t, empty, g, budget);
    SizesNatural(t, g, empty);
    BestIsBound(t, empty, g, TotalSize(t, g, empty));
  }

  /** `g` prunes no more than `f`, and if as much, then it is no smaller. */
  predicate NotBetter(t: Table, empty: int, f: seq<nat>, g: seq<nat>)
    requires t.Valid() && Assigns(t, f) && Assigns(t, g)
  {
    && TotalPruning(t, g) <= TotalPruning(t, f)
    && (TotalPruning(t, g) == TotalPruning(t, f) ==> TotalSize(t, f, empty) <= TotalSize(t, g, empty))
  }

  /** Within the budget nothing prunes more than `f`, and nothing that prunes as much is smaller. */
  ghost predicate IsBestAssignment(t: Table, empty: int, budget: int, f: seq<nat>)
    requires t.Valid()
  {
    && |f| == |t.rows| && Assigns(t, f) && TotalSize(t, f, empty) <= budget
    && forall g: seq<nat> :: |g| == |t.rows| && Assigns(t, g) && TotalSize(t, g, empty) <= budget ==>
      NotBetter(t, empty, f, g)
  }

  /** The first place of the largest value. */
  method Argmax(row: seq<int>) returns (b: nat)
    requires row != []
    ensures b < |row| && forall c :: 0 <= c < |row| ==> row[c] <= row[b] && (c < b ==> row[c] < row[b])
  {
    b := 0;
    for c := 1 to |row|
      invariant b < c && forall d :: 0 <= d < c ==> row[d] <= row[b] && (d < b ==> row[d] < row[b])
    {
      if row[c] > row[b] {
        b := c;
      }
    }
  }

  datatype Outcome =
    | Assignment(choices: map<nat, nat>, left: nat)
    | IndexError
    | NoTable

  /** The statistic test of one step back. */
  predicate Passes(t: Table, empty: int, i: nat, row: seq<int>, previous: seq<int>, left: nat, k: nat)
    requires t.Valid() && 1 <= i <= |t.rows| && k < t.stats
    requires left < |row| && t.Size(i - 1, k, empty) <= left && left - t.Size(i - 1, k, empty) < |previous|
  {
    row[left] == Wrap(previous[left - t.Size(i - 1, k, empty)] + t.Pruning(i - 1, k))
  }

  lemma PassesIsExact(t: Table, empty: int, i: nat, row: seq<int>, previous: seq<int>, left: nat, k: nat)
    requires t.Natural(empty) && 1 <= i <= |t.rows| && k < t.stats && t.Size(i - 1, k, empty) <= left < |row|
    requires |row| == |previous| && RowIsBest(t, empty, i - 1, previous) && RowIsBest(t, empty, i, row)
    requires IsRow(row, |row|)
    ensures Passes(t, empty, i, row, previous, left, k) <==>
      Best(t, empty, i, left) == Best(t, empty, i - 1, left - t.Size(i - 1, k, empty)) + t.Pruning(i - 1, k)
  {
    hide BestWith;
    BestWithBounds(t, empty, i, left, t.stats, k);
    assert BestWith(t, empty, i, left, t.stats) == row[left];
  }

  /** On an exact table, one of the listed statistics passes. */
  lemma SomePasses(t: Table, empty: int, order: seq<nat>, i: nat, row: seq<int>, previous: seq<int>, left: nat)
    returns (g: nat)
    requires t.Natural(empty) && Lists(order, t.stats) && 1 <= i <= |t.rows| && left < |row| == |previous|
    requires RowIsBest(t, empty, i - 1, previous) && RowIsBest(t, empty, i, row) && IsRow(row, |row|)
    ensures g < |order| && t.Size(i - 1, order[g], empty) <= left
    ensures Passes(t, empty, i, row, previous, left, order[g])
  {
    hide Passes;
    var h := BestWithTaken(t, empty, i, left, t.stats);
    PassesIsExact(t, empty, i, row, previous, left, h);
    assert h in order;
    g :| 0 <= g < |order| && order[g] == h;
  }

  /** Find the statistic of one step back. */
  method FindChoice(t: Table, empty: int, order: seq<nat>, i: nat, row: seq<int>, previous: seq<int>, left: nat)
    returns (found: bool, k: nat, crashed: bool)
    requires t.Valid() && Lists(order, t.stats) && 1 <= i <= |t.rows| && left < |row| == |previous|
    ensures crashed ==> !t.Natural(empty) && !found
    ensures found ==> k < t.stats && t.Size(i - 1, k, empty) <= left && left - t.Size(i - 1, k, empty) < |row|
    ensures found ==> Passes(t, empty, i, row, previous, left, k)
    ensures t.Natural(empty) && RowIsBest(t, empty, i - 1, previous) && RowIsBest(t, empty, i, row) && IsRow(row, |row|)
      ==>
      found && Best(t, empty, i, left) == Best(t, empty, i - 1, left - t.Size(i - 1, k, empty)) + t.Pruning(i - 1, k)
  {
    ghost var fits := t.Natural(empty) && RowIsBest(t, empty, i - 1, previous) && RowIsBest(t, empty, i, row)
      && IsRow(row, |row|);
    ghost var g: nat := |order|;
    if fits {
      g := SomePasses(t, empty, order, i, row, previous, left);
    }
    k := 0;
    for j := 0 to |order|
      invariant fits ==> j <= g < |order|
    {
      k := order[j];
      var size := t.Size(i - 1, k, empty);
      if size <= left {
        if left - size >= |previous| {
          return false, k, true;
        }
        if fits {
          PassesIsExact(t, empty, i, row, previous, left, k);
        }
        if Passes(t, empty, i, row, previous, left, k) {
          return true, k, false;
        }
      }
    }
    return false, k, false;
  }

  /** The choices as a sequence, with 0 for partitions that have none. */
  function Chosen(n: nat, choices: map<nat, nat>): (f: seq<nat>)
    ensures |f| == n
  {
    seq(n, i => if i in choices then choices[i] else 0)
  }

  lemma ChosenWith(n: nat, choices: map<nat, nat>, i: nat, k: nat)
    requires i < n
    ensures Chosen(n, choices[i := k]) == Chosen(n, choices)[i := k]
  {
  }

  ghost predicate AssignedFrom(choices: map<nat, nat>, i: nat, n: nat) {
    forall h: nat :: h in choices <==> i <= h < n
  }

  lemma WalkStarts(t: Table, empty: int, start: nat)
    requires t.Natural(empty)
    ensures RightFrom(t, empty, start, Chosen(|t.rows|, map[]), |t.rows|, start)
  {
    var f := Chosen(|t.rows|, map[]);
    assert f[..|t.rows|] == f;
  }

  /** All prunings fit into 32 bits. */
  predicate HasSmallPrunings(t: Table)
    requires t.Valid()
  {
    forall i, k :: 0 <= i < |t.rows| && 0 <= k < t.stats ==> 0 <= t.Pruning(i, k) < INT32_LIMIT
  }

  /** The choices from partition `i` on prune what the entries of the table differ by. */
  ghost predicate TracksFrom(t: Table, f: seq<nat>, i: nat, top: int, entry: int)
    requires t.Valid()
  {
    && i <= |f| == |t.rows| && Assigns(t, f)
    && TotalPruning(t, f) - TotalPruning(t, f[..i]) == top - entry
  }

  lemma TrackStarts(t: Table, top: int)
    requires t.Valid()
    ensures TracksFrom(t, Chosen(|t.rows|, map[]), |t.rows|, top, top)
  {
    var f := Chosen(|t.rows|, map[]);
    assert f[..|t.rows|] == f;
  }

  /** A choice that passes the test is tracked, even when the table is not exact: no sum can wrap to an entry that is
      not negative. */
  lemma ChoiceTracks(t: Table, empty: int, f: seq<nat>, i: nat, top: int, row: seq<int>, previous: seq<int>, left: nat,
                     k: nat)
    requires t.Valid() && HasSmallPrunings(t) && 1 <= i <= |t.rows| && k < t.stats
    requires left < |row| && t.Size(i - 1, k, empty) <= left && left - t.Size(i - 1, k, empty) < |previous|
    requires IsRow(row, |row|) && IsRow(previous, |previous|)
    requires Passes(t, empty, i, row, previous, left, k) && TracksFrom(t, f, i, top, row[left])
    ensures TracksFrom(t, f[i - 1 := k], i - 1, top, previous[left - t.Size(i - 1, k, empty)])
  {
    var g := f[i - 1 := k];
    PassesUnwrapped(t, empty, i, row, previous, left, k);
    hide Passes, IsRow;
    SameFrom(t, empty, f, g, i);
    assert g[..i][..i - 1] == g[..i - 1] && g[..i][i - 1] == k;
  }

  lemma PassesUnwrapped(t: Table, empty: int, i: nat, row: seq<int>, previous: seq<int>, left: nat, k: nat)
    requires t.Valid() && HasSmallPrunings(t) && 1 <= i <= |t.rows| && k < t.stats
    requires left < |row| && t.Size(i - 1, k, empty) <= left && left - t.Size(i - 1, k, empty) < |previous|
    requires IsRow(row, |row|) && IsRow(previous, |previous|) && Passes(t, empty, i, row, previous, left, k)
    ensures row[left] == previous[left - t.Size(i - 1, k, empty)] + t.Pruning(i - 1, k)
  {
  }

  lemma TrackEnds(t: Table, f: seq<nat>, top: int, entry: int)
    requires t.Valid() && TracksFrom(t, f, 0, top, entry) && entry >= 0
    ensures Assigns(t, f) && TotalPruning(t, f) <= top
  {
    assert f[..0] == [];
  }

  method Backtrack(t: Table, empty: int, order: seq<nat>, budget: nat, m: array<seq<int>>) returns (r: Outcome)
    requires t.Valid() && Lists(order, t.stats) && m.Length == |t.rows| + 1
    requires forall i :: 0 <= i < m.Length ==> IsRow(m[i], budget + 1)
    ensures t.Natural(empty) && TableIsBest(t, empty, m[..]) ==>
      && r.Assignment? && r.left == 0 && AssignedFrom(r.choices, 0, |t.rows|)
      && IsBestAssignment(t, empty, budget, Chosen(|t.rows|, r.choices))
    ensures HasSmallPrunings(t) && r.Assignment? && AssignedFrom(r.choices, 0, |t.rows|) ==>
      var f := Chosen(|t.rows|, r.choices); Assigns(t, f) && TotalPruning(t, f) < INT32_LIMIT
    ensures !r.NoTable?
  {
    hide RightFrom, RowIsBest, Chosen, IsBestAssignment, Best, BestWith, TracksFrom, Passes;
    var n := |t.rows|;
    ghost var fits := t.Natural(empty) && TableIsBest(t, empty, m[..]);
    assert fits ==> forall i :: 0 <= i <= n ==> RowIsBest(t, empty, i, m[..][i]);
    var left: nat := Argmax(m[n]);
    ghost var start := left;
    var choices: map<nat, nat> := map[];
    ghost var complete, missing, top := true, 0, m[n][left];
    if fits {
      WalkStarts(t, empty, start);
    }
    TrackStarts(t, top);
    for i := n downto 0
      invariant left <= budget && fits ==> RightFrom(t, empty, start, Chosen(n, choices), i, left)
      invariant left <= budget
      invariant fits ==> AssignedFrom(choices, i, n)
      invariant if complete then AssignedFrom(choices, i, n) else i <= missing < n && missing !in choices
      invariant forall h :: h in choices ==> i <= h < n
      invariant complete && HasSmallPrunings(t) ==> TracksFrom(t, Chosen(n, choices), i, top, m[i][left])
    {
      var found, k, crashed := FindChoice(t, empty, order, i + 1, m[i + 1], m[i], left);
      if crashed {
        return IndexError;
      }
      if found {
        if fits {
          ChoiceIsRight(t, empty, start, Chosen(n, choices), i + 1, left, k);
          ChosenWith(n, choices, i, k);
        }
        if complete && HasSmallPrunings(t) {
          ChoiceTracks(t, empty, Chosen(n, choices), i + 1, top, m[i + 1], m[i], left, k);
          ChosenWith(n, choices, i, k);
        }
        left := left - t.Size(i, k, empty);
        choices := choices[i := k];
      } else {
        complete, missing := false, i;
      }
    }
    if complete && HasSmallPrunings(t) {
      TrackEnds(t, Chosen(n, choices), top, m[0][left]);
    }
    if fits {
      FirstOptimum(t, empty, budget, m[n], start);
      RightIsBest(t, empty, budget, start, Chosen(n, choices), left);
    }
    r := Assignment(choices, left);
  }

  lemma FirstOptimum(t: Table, empty: int, budget: nat, last: seq<int>, start: nat)
    requires t.Natural(empty) && RowIsBest(t, empty, |t.rows|, last) && |last| == budget + 1 && start <= budget
    requires forall c :: 0 <= c < |last| ==> last[c] <= last[start] && (c < start ==> last[c] < last[start])
    ensures Best(t, empty, |t.rows|, start) == Best(t, empty, |t.rows|, budget)
    ensures forall b: nat :: b < start ==> Best(t, empty, |t.rows|, b) < Best(t, empty, |t.rows|, budget)
  {
    hide Best, BestWith;
    BestGrowsWithBudget(t, empty, |t.rows|, start, budget);
    assert last[budget] <= last[start];
  }

  // ---------- the whole program ----------

  /** The best assignment in sizes above `empty` is the best in the sizes of the table. */
  lemma BestInOriginalSizes(t: Table, empty: int, budget: int, f: seq<nat>)
    requires t.Valid() && IsBestAssignment(t, empty, budget - |t.rows| * empty, f)
    ensures IsBestAssignment(t, 0, budget, f)
  {
    hide TotalSize, TotalPruning;
    SizesShift(t, f, empty);
    forall g: seq<nat> | |g| == |t.rows| && Assigns(t, g) && TotalSize(t, g, 0) <= budget
      ensures NotBetter(t, 0, f, g)
    {
      SizesShift(t, g, empty);
      assert NotBetter(t, empty, f, g);
    }
  }

  /** A best assignment that prunes less than 2^31 shows that the optimum does. */
  lemma BestFits(t: Table, empty: int, budget: int, f: seq<nat>)
    requires t.Natural(empty) && IsBestAssignment(t, 0, budget, f) && budget >= |t.rows| * empty
    ensures Best(t, empty, |t.rows|, budget - |t.rows| * empty) <= TotalPruning(t, f)
  {
    hide TotalSize, TotalPruning, Best;
    var g := BestIsReached(t, empty, |t.rows|, budget - |t.rows| * empty);
    SizesShift(t, g, empty);
    assert NotBetter(t, 0, f, g);
  }

  ghost predicate IsCompleteAndBest(t: Table, budget: int, r: Outcome)
    requires t.Valid()
  {
    && r.Assignment? && AssignedFrom(r.choices, 0, |t.rows|)
    && IsBestAssignment(t, 0, budget, Chosen(|t.rows|, r.choices))
  }

  /** Assign a statistic to every partition. All sizes are taken relative to that of statistic 0 in partition `last`.
      The assignment prunes as much as any within the budget, and is the smallest that prunes so much, exactly when
      the optimum fits into 32 bits. */
  method AssignStatistics(t: Table, last: nat, order: seq<nat>, budget: int) returns (r: Outcome)
    requires t.Valid() && Lists(order, t.stats) && (t.rows == [] || last < |t.rows|)
    ensures var empty := if t.rows == [] then 0 else t.rows[last][0].size;
      var adjusted := budget - |t.rows| * empty;
      && (adjusted < 0 <==> r.NoTable?)
      && (t.Natural(empty) && 0 <= adjusted && Best(t, empty, |t.rows|, adjusted) < INT32_LIMIT ==>
        IsCompleteAndBest(t, budget, r) && r.left == 0)
      && (t.Natural(empty) && 0 <= adjusted && HasSmallPrunings(t) && IsCompleteAndBest(t, budget, r) ==>
        Best(t, empty, |t.rows|, adjusted) < INT32_LIMIT)
  {
    hide IsBestAssignment, Chosen, Best;
    var empty := if t.rows == [] then 0 else t.rows[last][0].size;
    var adjusted := budget - |t.rows| * empty;
    if adjusted < 0 {
      return NoTable;
    }
    var m := FillTable(t, empty, order, adjusted);
    r := Backtrack(t, empty, order, adjusted, m);
    if t.Natural(empty) && Best(t, empty, |t.rows|, adjusted) < INT32_LIMIT {
      BestInOriginalSizes(t, empty, budget, Chosen(|t.rows|, r.choices));
    }
    if t.Natural(empty) && IsCompleteAndBest(t, budget, r) {
      BestFits(t, empty, budget, Chosen(|t.rows|, r.choices));
    }
  }
}
