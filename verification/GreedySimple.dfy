/** The simple greedy assigner: one pass over all options, most pruning first, that gives a partition the first
    option that still fits. An option is charged in full, on top of the empty statistic it replaces. */
module GreedySimple {
  import opened GreedyState

  /** The order of the options: more pruning first, then smaller size, then by partition and statistic. */
  predicate Precedes(a: Row, b: Row) {
    a.pruning > b.pruning || (a.pruning == b.pruning &&
    (a.size < b.size || (a.size == b.size &&
    (a.partition < b.partition || (a.partition == b.partition && a.statistic <= b.statistic)))))
  }

  /** What the options are sorted by, as a tuple. */
  function SortKey(r: Row): seq<real> {
    [-r.pruning, r.size as real, r.partition as real, r.statistic as real]
  }

  /** Tuples of the same length are compared at the first place where they differ. */
  predicate IsAtMost(a: seq<real>, b: seq<real>)
    requires |a| == |b|
  {
    a == [] || a[0] < b[0] || (a[0] == b[0] && IsAtMost(a[1..], b[1..]))
  }

  lemma PrecedesExactly(a: Row, b: Row)
    ensures Precedes(a, b) <==> IsAtMost(SortKey(a), SortKey(b))
  {
    var k, l := SortKey(a), SortKey(b);
    assert k[1..][1..] == k[2..] && k[2..][1..] == k[3..] && k[3..][1..] == [];
    assert l[1..][1..] == l[2..] && l[2..][1..] == l[3..] && l[3..][1..] == [];
    assert IsAtMost(k[3..], l[3..]) <==> k[3] <= l[3];
    assert IsAtMost(k[2..], l[2..]) <==> k[2] < l[2] || (k[2] == l[2] && k[3] <= l[3]);
    assert IsAtMost(k[1..], l[1..]) <==> k[1] < l[1] || (k[1] == l[1] && IsAtMost(k[2..], l[2..]));
  }

  ghost predicate IsSorted(options: seq<Row>) {
    forall i, j :: 0 <= i < j < |options| ==> Precedes(options[i], options[j])
  }

  /** The lines with other than the empty statistic. */
  function NonEmpty(rows: seq<Row>): seq<Row> {
    if rows == [] then []
    else NonEmpty(rows[..|rows| - 1]) + (if rows[|rows| - 1].statistic != 0 then [rows[|rows| - 1]] else [])
  }

  /** The options are the lines with other than the empty statistic, as often as they come and in order. */
  ghost predicate AreOptions(rows: seq<Row>, options: seq<Row>) {
    IsSorted(options) && multiset(options) == multiset(NonEmpty(rows))
  }

  /** Every partition with an option has its empty statistic. */
  ghost predicate AllHaveEmpty(rows: seq<Row>) {
    forall r :: r in rows && r.statistic != 0 ==> HasEmpty(rows, r.partition)
  }

  ghost predicate HasEmpty(rows: seq<Row>, p: nat) {
    exists r :: r in rows && r.partition == p && r.statistic == 0
  }

  lemma {:induction false} NonEmptyIn(rows: seq<Row>, r: Row)
    ensures r in NonEmpty(rows) <==> r in rows && r.statistic != 0
    decreases |rows|
  {
    if rows != [] {
      NonEmptyIn(rows[..|rows| - 1], r);
      assert rows == rows[..|rows| - 1] + [rows[|rows| - 1]];
    }
  }

  lemma OptionIn(rows: seq<Row>, options: seq<Row>, o: Row)
    requires AreOptions(rows, options)
    ensures o in options <==> o in rows && o.statistic != 0
  {
    NonEmptyIn(rows, o);
    assert o in options <==> o in multiset(options);
    assert o in NonEmpty(rows) <==> o in multiset(NonEmpty(rows));
  }

  // ---------- sorting ----------

  function Insert(options: seq<Row>, o: Row): seq<Row> {
    if options != [] && !Precedes(options[|options| - 1], o) then
      Insert(options[..|options| - 1], o) + [options[|options| - 1]]
    else options + [o]
  }

  function Sort(options: seq<Row>): seq<Row> {
    if options == [] then [] else Insert(Sort(options[..|options| - 1]), options[|options| - 1])
  }

  lemma {:induction false} InsertAdds(options: seq<Row>, o: Row)
    ensures multiset(Insert(options, o)) == multiset(options) + multiset{o}
    decreases |options|
  {
    if options != [] && !Precedes(options[|options| - 1], o) {
      assert options == options[..|options| - 1] + [options[|options| - 1]];
      InsertAdds(options[..|options| - 1], o);
    }
  }

  lemma {:induction false} InsertSorts(options: seq<Row>, o: Row)
    requires IsSorted(options)
    ensures IsSorted(Insert(options, o))
    decreases |options|
  {
    if options != [] && !Precedes(options[|options| - 1], o) {
      var init, last := options[..|options| - 1], options[|options| - 1];
      InsertSorts(init, o);
      InsertAdds(init, o);
      forall r | r in Insert(init, o) ensures Precedes(r, last) {
        assert r in multiset(Insert(init, o));
        assert r in init || r == o;
      }
      hide Precedes;
    }
  }

  /** Sorting keeps all options and puts them in order. */
  lemma {:induction false} SortSorts(options: seq<Row>)
    ensures IsSorted(Sort(options)) && multiset(Sort(options)) == multiset(options)
    decreases |options|
  {
    hide IsSorted;
    if options == [] {
      NoneSorted();
    } else {
      SortSorts(options[..|options| - 1]);
      InsertSorts(Sort(options[..|options| - 1]), options[|options| - 1]);
      InsertAdds(Sort(options[..|options| - 1]), options[|options| - 1]);
      assert options == options[..|options| - 1] + [options[|options| - 1]];
    }
  }

  lemma SortedOptions(rows: seq<Row>)
    ensures AreOptions(rows, Sort(NonEmpty(rows)))
  {
    SortSorts(NonEmpty(rows));
  }

  lemma NoneSorted()
    ensures IsSorted([])
  {
  }

  // ---------- selections ----------

  /** What the first `j` options take, if `taken` tells which are taken. */
  function Spent(options: seq<Row>, taken: seq<bool>, j: nat): int
    requires j <= |options| && j <= |taken|
  {
    if j == 0 then 0 else Spent(options, taken, j - 1) + (if taken[j - 1] then options[j - 1].size else 0)
  }

  /** None of the first `j` options is taken for partition `p`. */
  ghost predicate IsFree(options: seq<Row>, taken: seq<bool>, j: nat, p: nat)
    requires j <= |options| && j <= |taken|
  {
    forall i :: 0 <= i < j && taken[i] ==> options[i].partition != p
  }

  /** At most one option for each partition, within the budget. */
  ghost predicate IsSelection(options: seq<Row>, taken: seq<bool>, budget: int) {
    && |taken| == |options| && Spent(options, taken, |options|) <= budget
    && forall j :: 0 <= j < |options| && taken[j] ==> IsFree(options, taken, j, options[j].partition)
  }

  /** An option is taken just when its partition is free and it fits what the options before it leave. */
  ghost predicate TakesFirstFit(options: seq<Row>, taken: seq<bool>, budget: int) {
    && |taken| <= |options|
    && forall j :: 0 <= j < |taken| ==>
      (taken[j] <==> IsFree(options, taken, j, options[j].partition)
                     && options[j].size <= budget - Spent(options, taken, j))
  }

  /** `b` takes the first option on which they differ. */
  ghost predicate LexBelow(a: seq<bool>, b: seq<bool>) {
    |a| == |b| && (a == b || exists j :: 0 <= j < |a| && a[..j] == b[..j] && !a[j] && b[j])
  }

  lemma {:induction false} SpentSame(options: seq<Row>, a: seq<bool>, b: seq<bool>, j: nat)
    requires j <= |options| && j <= |a| && j <= |b| && a[..j] == b[..j]
    ensures Spent(options, a, j) == Spent(options, b, j)
  {
    if j > 0 {
      assert a[..j - 1] == a[..j][..j - 1] && b[..j - 1] == b[..j][..j - 1];
      assert a[j - 1] == a[..j][j - 1] == b[j - 1];
      SpentSame(options, a, b, j - 1);
    }
  }

  lemma {:induction false} SpentGrows(options: seq<Row>, taken: seq<bool>, i: nat, j: nat)
    requires i <= j <= |options| && j <= |taken| && forall h :: 0 <= h < |options| ==> options[h].size >= 0
    ensures Spent(options, taken, i) <= Spent(options, taken, j)
    decreases j
  {
    if i < j {
      SpentGrows(options, taken, i, j - 1);
    }
  }

  lemma MustTake(options: seq<Row>, taken: seq<bool>, other: seq<bool>, budget: int, j: nat)
    requires TakesFirstFit(options, taken, budget) && |taken| == |options| && IsSelection(options, other, budget)
    requires forall h :: 0 <= h < |options| ==> options[h].size >= 0
    requires j < |options| && other[..j] == taken[..j]
    ensures other[j] ==> taken[j]
  {
    hide IsFree;
    if other[j] {
      SpentSame(options, other, taken, j);
      SpentGrows(options, other, j + 1, |options|);
      FreeSame(options, other, taken, j, options[j].partition);
    }
  }

  /** No selection within the budget takes an option earlier in the order than the pass does. */
  lemma {:induction false} FirstFitIsGreatest(options: seq<Row>, taken: seq<bool>, other: seq<bool>, budget: int,
                                              j: nat)
    requires TakesFirstFit(options, taken, budget) && |taken| == |options| && IsSelection(options, other, budget)
    requires forall h :: 0 <= h < |options| ==> options[h].size >= 0
    requires j <= |options| && other[..j] == taken[..j]
    ensures LexBelow(other, taken)
    decreases |options| - j
  {
    hide TakesFirstFit;
    if j == |options| {
      assert other == other[..j] && taken == taken[..j];
    } else if other[j] == taken[j] {
      assert other[..j + 1] == other[..j] + [other[j]] && taken[..j + 1] == taken[..j] + [taken[j]];
      FirstFitIsGreatest(options, taken, other, budget, j + 1);
    } else {
      MustTake(options, taken, other, budget, j);
    }
  }

  /** In the end no option of a partition without one fits. */
  lemma FirstFitLeavesNothing(options: seq<Row>, taken: seq<bool>, budget: int, j: nat)
    requires TakesFirstFit(options, taken, budget) && |taken| == |options| && j < |options|
    requires forall h :: 0 <= h < |options| ==> options[h].size >= 0
    requires IsFree(options, taken, |options|, options[j].partition)
    ensures options[j].size > budget - Spent(options, taken, |options|)
  {
    SpentGrows(options, taken, j, |options|);
  }

  lemma {:induction false} FirstFitKeepsBudget(options: seq<Row>, taken: seq<bool>, budget: int, j: nat)
    requires TakesFirstFit(options, taken, budget) && j <= |taken| && budget >= 0
    ensures Spent(options, taken, j) <= budget
  {
    hide IsFree;
    if j > 0 {
      FirstFitKeepsBudget(options, taken, budget, j - 1);
    }
  }

  /** The pass makes the lexicographically greatest of all selections within the budget. */
  lemma FirstFitIsBest(options: seq<Row>, taken: seq<bool>, budget: int)
    requires TakesFirstFit(options, taken, budget) && |taken| == |options| && budget >= 0
    requires forall h :: 0 <= h < |options| ==> options[h].size >= 0
    ensures IsSelection(options, taken, budget)
    ensures forall other :: IsSelection(options, other, budget) ==> LexBelow(other, taken)
  {
    hide LexBelow;
    FirstFitKeepsBudget(options, taken, budget, |options|);
    forall other | IsSelection(options, other, budget) ensures LexBelow(other, taken) {
      assert other[..0] == taken[..0];
      FirstFitIsGreatest(options, taken, other, budget, 0);
    }
  }

  // ---------- the program ----------

  /** `mapping` has the empty statistic, or the one taken among the first `j` options. */
  ghost predicate Maps(rows: seq<Row>, options: seq<Row>, taken: seq<bool>, mapping: map<nat, nat>) {
    && |taken| <= |options|
    && (forall p :: p in mapping <==> HasEmpty(rows, p))
    && (forall p :: p in mapping ==> (mapping[p] == 0 <==> IsFree(options, taken, |taken|, p)))
    && (forall i :: 0 <= i < |taken| && taken[i] ==>
      options[i].partition in mapping && mapping[options[i].partition] == options[i].statistic)
  }

  method Read(rows: seq<Row>, initial: int) returns (mapping: map<nat, nat>, budget: int, options: seq<Row>)
    ensures budget == initial - EmptySize(rows) && options == NonEmpty(rows)
    ensures forall p :: p in mapping <==> HasEmpty(rows, p)
    ensures forall p :: p in mapping ==> mapping[p] == 0
  {
    mapping, budget, options := map[], initial, [];
    for j := 0 to |rows|
      invariant budget == initial - EmptySize(rows[..j]) && options == NonEmpty(rows[..j])
      invariant forall p :: p in mapping ==> mapping[p] == 0 && HasEmpty(rows, p)
      invariant forall i :: 0 <= i < j && rows[i].statistic == 0 ==> rows[i].partition in mapping
    {
      EmptySizeStep(rows, j);
      assert rows[..j + 1][..j] == rows[..j];
      if rows[j].statistic == 0 {
        budget := budget - rows[j].size;
        mapping := mapping[rows[j].partition := rows[j].statistic];
        assert HasEmpty(rows, rows[j].partition) by { assert rows[j] in rows; }
      } else {
        options := options + [rows[j]];
      }
    }
    assert rows[..|rows|] == rows;
  }

  lemma Nothing(rows: seq<Row>, options: seq<Row>, mapping: map<nat, nat>, budget: int)
    requires forall p :: p in mapping <==> HasEmpty(rows, p)
    requires forall p :: p in mapping ==> mapping[p] == 0
    ensures Maps(rows, options, [], mapping) && TakesFirstFit(options, [], budget) && Spent(options, [], 0) == 0
  {
  }

  /** The mapping and the budget left, when each option is taken that fits first. */
  ghost predicate IsFirstFit(rows: seq<Row>, options: seq<Row>, initial: int, taken: seq<bool>,
                             mapping: map<nat, nat>, left: int)
  {
    && |taken| == |options| && TakesFirstFit(options, taken, initial - EmptySize(rows))
    && left == initial - EmptySize(rows) - Spent(options, taken, |options|)
    && Maps(rows, options, taken, mapping)
  }

  /** `options` are the options in order. The lookup fails exactly if an option's partition has no empty statistic. */
  method Assign(rows: seq<Row>, initial: int)
    returns (found: bool, mapping: map<nat, nat>, budget: int, options: seq<Row>)
    ensures AreOptions(rows, options) && (found <==> AllHaveEmpty(rows))
    ensures found ==> exists taken :: IsFirstFit(rows, options, initial, taken, mapping, budget)
  {
    hide TakesFirstFit, IsFree, HasEmpty, AllHaveEmpty, IsSorted, AreOptions, Precedes, Spent, Maps, EmptySize, Sort;
    mapping, budget, options := Read(rows, initial);
    options := Sort(options);
    SortedOptions(rows);
    Nothing(rows, options, mapping, budget);
    ghost var start := budget;
    ghost var taken: seq<bool> := [];
    for j := 0 to |options|
      invariant |taken| == j && TakesFirstFit(options, taken, start)
      invariant budget == start - Spent(options, taken, j)
      invariant Maps(rows, options, taken, mapping)
      invariant forall i :: 0 <= i < j ==> HasEmpty(rows, options[i].partition)
    {
      var o := options[j];
      OptionIn(rows, options, o);
      Mapped(rows, options, taken, mapping, o.partition);
      if o.partition !in mapping {
        Lacks(rows, options, j);
        return false, mapping, budget, options;
      }
      ghost var before, beforeMapping := taken, mapping;
      if mapping[o.partition] == 0 && o.size <= budget {
        budget := budget - o.size;
        mapping := mapping[o.partition := o.statistic];
        taken := taken + [true];
      } else {
        taken := taken + [false];
      }
      NextTakes(options, before, start, taken[j]);
      NextMaps(rows, options, before, beforeMapping, taken[j]);
      NextSpent(options, before, taken[j]);
    }
    found := true;
    LacksNone(rows, options);
    assert IsFirstFit(rows, options, initial, taken, mapping, budget);
  }

  lemma Lacks(rows: seq<Row>, options: seq<Row>, j: nat)
    requires AreOptions(rows, options) && j < |options| && !HasEmpty(rows, options[j].partition)
    ensures !AllHaveEmpty(rows)
  {
    OptionIn(rows, options, options[j]);
  }

  lemma LacksNone(rows: seq<Row>, options: seq<Row>)
    requires AreOptions(rows, options) && forall i :: 0 <= i < |options| ==> HasEmpty(rows, options[i].partition)
    ensures AllHaveEmpty(rows)
  {
    hide HasEmpty, AreOptions;
    forall r | r in rows && r.statistic != 0 ensures HasEmpty(rows, r.partition) {
      OptionIn(rows, options, r);
    }
  }

  lemma Mapped(rows: seq<Row>, options: seq<Row>, taken: seq<bool>, mapping: map<nat, nat>, p: nat)
    requires Maps(rows, options, taken, mapping)
    ensures p in mapping <==> HasEmpty(rows, p)
    ensures p in mapping ==> (mapping[p] == 0 <==> IsFree(options, taken, |taken|, p))
  {
  }

  lemma NextSpent(options: seq<Row>, taken: seq<bool>, take: bool)
    requires |taken| < |options|
    ensures var j := |taken|;
      Spent(options, taken + [take], j + 1) == Spent(options, taken, j) + (if take then options[j].size else 0)
  {
    var all, j := taken + [take], |taken|;
    assert all[..j] == taken[..j];
    SpentSame(options, all, taken, j);
  }

  lemma FreeSame(options: seq<Row>, a: seq<bool>, b: seq<bool>, i: nat, p: nat)
    requires i <= |options| && i <= |a| && i <= |b| && a[..i] == b[..i]
    ensures IsFree(options, a, i, p) == IsFree(options, b, i, p)
  {
    assert forall h :: 0 <= h < i ==> a[h] == a[..i][h] == b[..i][h] == b[h];
  }

  lemma NextTakes(options: seq<Row>, taken: seq<bool>, budget: int, take: bool)
    requires |taken| < |options| && TakesFirstFit(options, taken, budget)
    requires var o := options[|taken|];
      take <==> IsFree(options, taken, |taken|, o.partition) && o.size <= budget - Spent(options, taken, |taken|)
    ensures TakesFirstFit(options, taken + [take], budget)
  {
    hide IsFree, Spent;
    var all := taken + [take];
    forall i | 0 <= i < |all|
      ensures all[i] <==> IsFree(options, all, i, options[i].partition)
                          && options[i].size <= budget - Spent(options, all, i)
    {
      assert all[..i] == taken[..i];
      SpentSame(options, all, taken, i);
      FreeSame(options, all, taken, i, options[i].partition);
    }
  }

  lemma NextFree(options: seq<Row>, taken: seq<bool>, take: bool, p: nat)
    requires |taken| < |options|
    ensures var j := |taken|;
      IsFree(options, taken + [take], j + 1, p) ==
      (IsFree(options, taken, j, p) && (take ==> options[j].partition != p))
  {
    var all := taken + [take];
    assert all[..|taken|] == taken[..|taken|];
    FreeSame(options, all, taken, |taken|, p);
    if take && options[|taken|].partition == p {
      assert all[|taken|];
    }
  }

  lemma NextMaps(rows: seq<Row>, options: seq<Row>, taken: seq<bool>, mapping: map<nat, nat>, take: bool)
    requires |taken| < |options| && Maps(rows, options, taken, mapping)
    requires var o := options[|taken|];
      o.partition in mapping && o.statistic != 0 && (take ==> mapping[o.partition] == 0)
    ensures var o := options[|taken|];
      Maps(rows, options, taken + [take], if take then mapping[o.partition := o.statistic] else mapping)
  {
    hide HasEmpty;
    var o := options[|taken|];
    var all := taken + [take];
    var after := if take then mapping[o.partition := o.statistic] else mapping;
    forall p | p in after ensures after[p] == 0 <==> IsFree(options, all, |all|, p) {
      NextFree(options, taken, take, p);
    }
    forall i | 0 <= i < |all| && all[i]
      ensures options[i].partition in after && after[options[i].partition] == options[i].statistic
    {
      if i < |taken| {
        assert taken[i];
      }
    }
  }
}
