/** The three assigners on one table: what the greedy ones choose keeps the budget, in the sizes of the table, and
    never prunes more than what the exact one chooses. */
module Dominance {
  import opened OptionTable
  import opened GreedyState
  import opened GreedySimple
  import Dp

  /** Every line is a choice of the table, in any order, and every partition has its empty statistic. */
  ghost predicate Describes(rows: seq<Row>, t: Table)
    requires t.Valid()
  {
    && IsInput(rows, |t.rows|)
    && (forall r :: r in rows ==>
      && r.statistic < t.stats && r.partition < |t.rows|
      && r.size == t.rows[r.partition][r.statistic].size
      && r.pruning == t.rows[r.partition][r.statistic].pruning as real)
    && (forall p :: 0 <= p < |t.rows| ==> HasEmpty(rows, p))
  }

  lemma {:induction false} SizesAddUp(t: Table, f: seq<nat>, sizes: seq<int>)
    requires t.Valid() && Assigns(t, f) && |sizes| == |f|
    requires forall p :: 0 <= p < |f| ==> sizes[p] == t.rows[p][f[p]].size
    ensures TotalSize(t, f, 0) == Sum(sizes)
    decreases |f|
  {
    if f != [] {
      SizesAddUp(t, f[..|f| - 1], sizes[..|f| - 1]);
    }
  }

  // ---------- the lazy one ----------

  lemma LazyKeepsBudget(t: Table, rows: seq<Row>, budget: int, s: State)
    requires t.Valid() && Describes(rows, t) && Conserves(rows, |t.rows|, budget, s) && Sum(s.size) <= budget
    requires forall r :: r in rows && r.statistic == 0 ==> r.partition in s.mapping
    ensures var f := Dp.Chosen(|t.rows|, s.mapping); Assigns(t, f) && TotalSize(t, f, 0) <= budget
  {
    hide Sum;
    var f := Dp.Chosen(|t.rows|, s.mapping);
    forall p | 0 <= p < |t.rows| ensures f[p] < t.stats && s.size[p] == t.rows[p][f[p]].size {
      assert HasEmpty(rows, p) && Matches(rows, s, p);
    }
    SizesAddUp(t, f, s.size);
  }

  /** The lazy greedy assignment prunes no more than the exact one. */
  lemma LazyNeverBeatsDp(t: Table, rows: seq<Row>, budget: int, s: State, best: seq<nat>)
    requires t.Valid() && Describes(rows, t) && Conserves(rows, |t.rows|, budget, s) && Sum(s.size) <= budget
    requires forall r :: r in rows && r.statistic == 0 ==> r.partition in s.mapping
    requires Dp.IsBestAssignment(t, 0, budget, best)
    ensures var f := Dp.Chosen(|t.rows|, s.mapping);
      Assigns(t, f) && TotalSize(t, f, 0) <= budget && TotalPruning(t, f) <= TotalPruning(t, best)
  {
    hide Describes, Conserves;
    LazyKeepsBudget(t, rows, budget, s);
    assert Dp.NotBetter(t, 0, best, Dp.Chosen(|t.rows|, s.mapping));
  }

  // ---------- the simple one ----------

  /** The sizes that the first `j` lines give to the partitions. */
  lemma {:induction false} EmptySizes(rows: seq<Row>, n: nat, j: nat) returns (sizes: seq<int>)
    requires IsInput(rows, n) && j <= |rows|
    ensures |sizes| == n && Sum(sizes) == EmptySize(rows[..j])
    ensures forall i :: 0 <= i < j && rows[i].statistic == 0 ==> sizes[rows[i].partition] == rows[i].size
    ensures forall p :: 0 <= p < n ==>
      sizes[p] == 0 || exists i :: 0 <= i < j && rows[i].partition == p && rows[i].statistic == 0
  {
    hide Sum, EmptySize;
    if j == 0 {
      sizes := seq(n, _ => 0);
      SumZero(sizes);
      EmptySizeStart(rows);
    } else {
      var before := EmptySizes(rows, n, j - 1);
      var row := rows[j - 1];
      EmptySizeStep(rows, j - 1);
      sizes := if row.statistic == 0 then before[row.partition := row.size] else before;
      if row.statistic == 0 {
        SumUpdate(before, row.partition, row.size);
      }
    }
  }

  /** The sizes of the empty statistics. */
  lemma AllEmptySizes(t: Table, rows: seq<Row>) returns (sizes: seq<int>)
    requires t.Valid() && Describes(rows, t)
    ensures |sizes| == |t.rows| && Sum(sizes) == EmptySize(rows)
    ensures forall p :: 0 <= p < |t.rows| ==> sizes[p] == t.rows[p][0].size
  {
    hide Sum, EmptySize;
    sizes := EmptySizes(rows, |t.rows|, |rows|);
    assert rows[..|rows|] == rows;
    forall p | 0 <= p < |t.rows| ensures sizes[p] == t.rows[p][0].size {
      assert HasEmpty(rows, p);
    }
  }

  /** `sizes` are those of the partitions after the first `j` options. What these options take is on top of all
      empty statistics, so it is no less than the sum. */
  ghost predicate AreSizes(t: Table, rows: seq<Row>, options: seq<Row>, taken: seq<bool>, j: nat, sizes: seq<int>)
    requires t.Valid() && j <= |taken| && j <= |options|
  {
    && |sizes| == |t.rows| && Sum(sizes) <= EmptySize(rows) + Spent(options, taken, j)
    && (forall p :: 0 <= p < |t.rows| && IsFree(options, taken, j, p) ==> sizes[p] == t.rows[p][0].size)
    && (forall i :: 0 <= i < j && taken[i] ==>
      options[i].partition < |sizes| && sizes[options[i].partition] == options[i].size)
  }

  lemma NoneTaken(t: Table, rows: seq<Row>, options: seq<Row>, taken: seq<bool>, sizes: seq<int>)
    requires t.Valid() && |sizes| == |t.rows| && Sum(sizes) == EmptySize(rows)
    requires forall p :: 0 <= p < |t.rows| ==> sizes[p] == t.rows[p][0].size
    ensures AreSizes(t, rows, options, taken, 0, sizes)
  {
  }

  lemma NotTaken(t: Table, rows: seq<Row>, options: seq<Row>, taken: seq<bool>, j: nat, sizes: seq<int>)
    requires t.Valid() && 1 <= j <= |taken| && j <= |options| && !taken[j - 1]
    requires AreSizes(t, rows, options, taken, j - 1, sizes)
    ensures AreSizes(t, rows, options, taken, j, sizes)
  {
    hide Sum, EmptySize;
    forall q | 0 <= q < |t.rows| && IsFree(options, taken, j, q) ensures IsFree(options, taken, j - 1, q) {
    }
  }

  lemma OneMoreTaken(t: Table, rows: seq<Row>, options: seq<Row>, taken: seq<bool>, j: nat, before: seq<int>, p: nat)
    requires t.Valid() && 1 <= j <= |taken| && j <= |options| && taken[j - 1]
    requires p == options[j - 1].partition < |t.rows| && IsFree(options, taken, j - 1, p) && t.rows[p][0].size >= 0
    requires AreSizes(t, rows, options, taken, j - 1, before)
    ensures |before| == |t.rows| && AreSizes(t, rows, options, taken, j, before[p := options[j - 1].size])
  {
    hide Sum, EmptySize;
    SumUpdate(before, p, options[j - 1].size);
    forall q | 0 <= q < |t.rows| && IsFree(options, taken, j, q) ensures q != p && IsFree(options, taken, j - 1, q) {
      assert taken[j - 1];
    }
  }

  lemma TakenIsFree(t: Table, rows: seq<Row>, options: seq<Row>, taken: seq<bool>, budget: int, j: nat)
    requires t.Valid() && Describes(rows, t) && AreOptions(rows, options) && TakesFirstFit(options, taken, budget)
    requires j < |taken| && taken[j]
    ensures j < |options| && options[j].partition < |t.rows| && IsFree(options, taken, j, options[j].partition)
  {
    hide IsFree, AreOptions;
    assert options[j] in options;
    OptionIn(rows, options, options[j]);
  }

  lemma {:induction false} SimpleSizes(t: Table, rows: seq<Row>, options: seq<Row>, taken: seq<bool>, budget: int,
                                       j: nat)
    returns (sizes: seq<int>)
    requires t.Valid() && Describes(rows, t) && AreOptions(rows, options)
    requires TakesFirstFit(options, taken, budget) && j <= |taken| && j <= |options|
    requires forall p :: 0 <= p < |t.rows| ==> t.rows[p][0].size >= 0
    ensures AreSizes(t, rows, options, taken, j, sizes)
  {
    hide AreSizes, TakesFirstFit, AreOptions, Describes, IsFree;
    if j == 0 {
      sizes := AllEmptySizes(t, rows);
      NoneTaken(t, rows, options, taken, sizes);
    } else {
      sizes := SimpleSizes(t, rows, options, taken, budget, j - 1);
      if taken[j - 1] {
        TakenIsFree(t, rows, options, taken, budget, j - 1);
        var p := options[j - 1].partition;
        OneMoreTaken(t, rows, options, taken, j, sizes, p);
        sizes := sizes[p := options[j - 1].size];
      } else {
        NotTaken(t, rows, options, taken, j, sizes);
      }
    }
  }

  lemma SimpleKeepsBudget(t: Table, rows: seq<Row>, options: seq<Row>, taken: seq<bool>, mapping: map<nat, nat>,
                          budget: int, left: int)
    requires t.Valid() && Describes(rows, t) && AreOptions(rows, options) && EmptySize(rows) <= budget
    requires IsFirstFit(rows, options, budget, taken, mapping, left)
    requires forall p :: 0 <= p < |t.rows| ==> t.rows[p][0].size >= 0
    ensures var f := Dp.Chosen(|t.rows|, mapping); Assigns(t, f) && TotalSize(t, f, 0) <= budget
  {
    hide Sum, EmptySize, AreOptions;
    var sizes := SimpleSizes(t, rows, options, taken, budget - EmptySize(rows), |taken|);
    FirstFitKeepsBudget(options, taken, budget - EmptySize(rows), |taken|);
    var f := Dp.Chosen(|t.rows|, mapping);
    forall p | 0 <= p < |t.rows| ensures f[p] < t.stats && sizes[p] == t.rows[p][f[p]].size {
      assert HasEmpty(rows, p) && p in mapping;
      if !IsFree(options, taken, |taken|, p) {
        var i :| 0 <= i < |taken| && taken[i] && options[i].partition == p;
        assert options[i] in options;
        OptionIn(rows, options, options[i]);
      }
    }
    SizesAddUp(t, f, sizes);
  }

  /** The simple greedy assignment prunes no more than the exact one. */
  lemma SimpleNeverBeatsDp(t: Table, rows: seq<Row>, options: seq<Row>, mapping: map<nat, nat>, budget: int, left: int,
                           best: seq<nat>)
    requires t.Valid() && Describes(rows, t) && AreOptions(rows, options) && EmptySize(rows) <= budget
    requires exists taken :: IsFirstFit(rows, options, budget, taken, mapping, left)
    requires forall p :: 0 <= p < |t.rows| ==> t.rows[p][0].size >= 0
    requires Dp.IsBestAssignment(t, 0, budget, best)
    ensures var f := Dp.Chosen(|t.rows|, mapping);
      Assigns(t, f) && TotalSize(t, f, 0) <= budget && TotalPruning(t, f) <= TotalPruning(t, best)
  {
    hide Describes, AreOptions, IsFirstFit;
    var taken :| IsFirstFit(rows, options, budget, taken, mapping, left);
    SimpleKeepsBudget(t, rows, options, taken, mapping, budget, left);
    assert Dp.NotBetter(t, 0, best, Dp.Chosen(|t.rows|, mapping));
  }
}
