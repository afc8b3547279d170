/** What the three assigners start from: for each partition, what each statistic costs and how much it prunes. */
module OptionTable {
  datatype Choice = Choice(size: int, pruning: int)

  /** `rows[i][k]` is partition `i` with statistic `k`; statistic 0 is the empty one. */
  datatype Table = Table(rows: seq<seq<Choice>>, stats: nat) {
    /** Every partition has every statistic. */
    predicate Valid() {
      stats >= 1 && forall i :: 0 <= i < |rows| ==> |rows[i]| == stats
    }

    /** No choice is smaller or prunes less than nothing, compared with a statistic 0 of size `empty`. */
    predicate Natural(empty: int) {
      Valid() && forall i, k :: 0 <= i < |rows| && 0 <= k < stats ==>
        rows[i][k].pruning >= 0 && (if k == 0 then rows[i][k].size == empty else rows[i][k].size >= empty)
    }

    function Size(i: nat, k: nat, empty: int): int
      requires Valid() && i < |rows| && k < stats
    {
      rows[i][k].size - empty
    }

    function Pruning(i: nat, k: nat): int
      requires Valid() && i < |rows| && k < stats
    {
      rows[i][k].pruning
    }
  }

  /** `f` chooses a statistic for each of the first `|f|` partitions. */
  predicate Assigns(t: Table, f: seq<nat>) {
    |f| <= |t.rows| && forall i :: 0 <= i < |f| ==> f[i] < t.stats
  }

  /** The size of all choices, each less `empty`. */
  function TotalSize(t: Table, f: seq<nat>, empty: int): int
    requires t.Valid() && Assigns(t, f)
  {
    if f == [] then 0
    else TotalSize(t, f[..|f| - 1], empty) + t.Size(|f| - 1, f[|f| - 1], empty)
  }

  function TotalPruning(t: Table, f: seq<nat>): int
    requires t.Valid() && Assigns(t, f)
  {
    if f == [] then 0
    else TotalPruning(t, f[..|f| - 1]) + t.Pruning(|f| - 1, f[|f| - 1])
  }

  lemma {:induction false} SizesShift(t: Table, f: seq<nat>, empty: int)
    requires t.Valid() && Assigns(t, f)
    ensures TotalSize(t, f, 0) == TotalSize(t, f, empty) + |f| * empty
    decreases |f|
  {
    if f != [] {
      SizesShift(t, f[..|f| - 1], empty);
      assert |f| * empty == (|f| - 1) * empty + empty;
    }
  }

  lemma {:induction false} SizesNatural(t: Table, f: seq<nat>, empty: int)
    requires t.Natural(empty) && Assigns(t, f)
    ensures TotalSize(t, f, empty) >= 0
    decreases |f|
  {
    if f != [] {
      SizesNatural(t, f[..|f| - 1], empty);
    }
  }
}
