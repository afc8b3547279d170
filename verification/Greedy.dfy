/** The lazy greedy assigner as it runs: its reading, its rounds and its loop, and three inputs that go wrong. */
module Greedy {
  import opened GreedyState
  import opened GreedySafety
  import opened EagerGreedy

  class LazyGreedy {
    var budget: int
    var mapping: map<nat, nat>
    var currentSize: seq<int>
    var currentPruningPower: seq<real>
    var pq: seq<Entry>

    function At(): State
      reads this
    {
      State(budget, mapping, currentSize, currentPruningPower, pq)
    }

    constructor (n: nat, initial: int)
      ensures At() == State(initial, map[], seq(n, _ => 0), seq(n, _ => 0.0), [])
    {
      budget := initial;
      mapping := map[];
      currentSize := seq(n, _ => 0);
      currentPruningPower := seq(n, _ => 0.0);
      pq := [];
    }

    /** Start with the empty statistics, and queue all other options. */
    method Read(rows: seq<Row>, ghost n: nat, ghost initial: int)
      requires IsInput(rows, n) && At() == State(initial, map[], seq(n, _ => 0), seq(n, _ => 0.0), [])
      modifies this
      ensures At() == Start(rows, n, initial, |rows|) && IsRead(rows, n, initial, |rows|, At())
    {
      for j := 0 to |rows|
        invariant At() == Start(rows, n, initial, j)
      {
        var row := rows[j];
        if row.statistic == 0 {
          budget := budget - row.size;
          mapping := mapping[row.partition := row.statistic];
          currentSize := currentSize[row.partition := row.size];
        } else {
          pq := pq + [Entry(-row.pruning / (row.size as real), row)];
        }
      }
      StartIsRead(rows, n, initial, |rows|);
    }

    /** Take an entry with the smallest key out of the queue. */
    method Pop() returns (entry: Entry, ghost j: nat)
      requires pq != []
      modifies `pq
      ensures j < |old(pq)| && entry == old(pq)[j] && pq == old(pq)[..j] + old(pq)[j + 1..]
      ensures forall h :: 0 <= h < |old(pq)| ==> entry.key <= old(pq)[h].key
    {
      var least := 0;
      for h := 1 to |pq|
        invariant least < h && pq == old(pq) && forall i :: 0 <= i < h ==> pq[least].key <= pq[i].key
      {
        if pq[h].key < pq[least].key {
          least := h;
        }
      }
      entry, j := pq[least], least;
      pq := pq[..least] + pq[least + 1..];
    }

    /** One round of the loop; false if it divides by zero. */
    method Round() returns (ok: bool, ghost j: nat)
      requires IsSound(At()) && pq != []
      modifies this
      ensures IsLeast(old(pq), j) && j < |old(pq)| && (ok <==> !Fails(old(At()), j))
      ensures At() == if ok then After(old(At()), j) else Popped(old(At()), j)
    {
      ghost var s := At();
      var entry;
      entry, j := Pop();
      assert At() == Popped(s, j);
      var row := entry.row;
      ok := true;
      if row.size - currentSize[row.partition] > budget || row.pruning <= currentPruningPower[row.partition] {
        return;
      }
      if row.size - currentSize[row.partition] == 0 {
        return false, j;
      }
      var newKey := -(row.pruning - currentPruningPower[row.partition])
                    / ((row.size - currentSize[row.partition]) as real);
      if entry.key != newKey {
        pq := pq + [Entry(newKey, row)];
        return;
      }
      budget := budget - (row.size - currentSize[row.partition]);
      mapping := mapping[row.partition := row.statistic];
      currentPruningPower := currentPruningPower[row.partition := row.pruning];
      currentSize := currentSize[row.partition := row.size];
    }

    /** The whole loop; false if it divides by zero. Budget and sizes add up, what is mapped is what was counted, and
        the budget is kept if the empty statistics fit it. Unless an upgrade freed budget, no option that prunes more
        than what its partition has fits at the end. Where options that prune are no smaller than the empty statistic
        they replace, no upgrade does; where they are larger, the loop gets to its end, and only there can both be
        said of every budget. Where empty statistics are free, the loop gets from the same start to the same end as the
        eager program. */
    method Run(rows: seq<Row>, n: nat, initial: int) returns (ok: bool, ghost run: seq<State>)
      requires IsInput(rows, n) && At() == State(initial, map[], seq(n, _ => 0), seq(n, _ => 0.0), [])
      modifies this
      ensures IsRun(rows, n, initial, run)
      ensures if ok then At() == run[|run| - 1] && pq == [] else CanFail(run[|run| - 1])
      ensures Conserves(rows, n, initial, At())
      ensures EmptySize(rows) <= initial ==> Sum(currentSize) <= initial
      ensures forall r :: r in rows && r.statistic == 0 ==> r.partition in mapping
      ensures ok && !FreesBudget(run) ==> IsLocallyMaximal(rows, At())
      ensures SizesNatural(rows) && PruningCosts(rows, false) ==> !FreesBudget(run)
      ensures SizesNatural(rows) && PruningCosts(rows, true) ==> ok && !FreesBudget(run)
      ensures SizesNatural(rows) && !PruningCosts(rows, true) && initial == EmptySize(rows) ==> !ok || FreesBudget(run)
      ensures SizesNatural(rows) && EmptyIsFree(rows) ==>
        ok && exists eager :: IsEagerRun(rows, Erased(run[0]), Erased(At()), true, eager)
    {
      hide Sum, Conserves, StaleCount, PruningCosts, SizesNatural, IsLocallyMaximal, FreesBudget;
      hide EmptyIsFree, IsEagerRun;
      Read(rows, n, initial);
      assert rows[..|rows|] == rows;
      ghost var read := At();
      StartConserves(rows, n, initial);
      SoundOfConserves(rows, n, initial, read);
      hide IsRead, Start, Fails, After, IsLeast, IsStep, CanFail;
      ok, run := true, [read];
      while pq != [] && ok
        invariant IsRun(rows, n, initial, run) && (if ok then At() == run[|run| - 1] else CanFail(run[|run| - 1]))
        invariant Conserves(rows, n, initial, At()) && IsSound(At()) && read.mapping.Keys <= mapping.Keys
        invariant read.budget >= 0 ==> budget >= 0
        decreases ok, |pq|, StaleCount(At(), pq)
      {
        ghost var s := At();
        ghost var j;
        ok, j := Round();
        Takes(s, j);
        if ok {
          RoundKeeps(rows, n, initial, s, j);
          RunGoesOn(rows, n, initial, run, At());
          run := run + [At()];
        } else {
          PopConserves(rows, n, initial, s, j);
        }
      }
      SumsUp(rows, n, initial, At());
      Ends(rows, n, initial, run);
      EndsEager(rows, n, initial, run);
    }
  }

  lemma EndsEager(rows: seq<Row>, n: nat, initial: int, run: seq<State>)
    requires IsInput(rows, n) && IsRun(rows, n, initial, run)
    requires run[|run| - 1].pq == [] || CanFail(run[|run| - 1])
    ensures SizesNatural(rows) && EmptyIsFree(rows) ==>
      var s := run[|run| - 1];
      s.pq == [] && exists eager :: IsEagerRun(rows, Erased(run[0]), Erased(s), true, eager)
  {
    hide EmptyIsFree, PruningCosts, IsEagerRun, IsStep, Start, CanFail;
    if SizesNatural(rows) && EmptyIsFree(rows) {
      FreeCosts(rows, n);
      NeverFrees(rows, n, initial, run);
      var eager := LazyIsEager(rows, n, initial, run, |run| - 1);
    }
  }

  lemma RoundKeeps(rows: seq<Row>, n: nat, initial: int, s: State, j: nat)
    requires IsSound(s) && Conserves(rows, n, initial, s) && j < |s.pq| && !Fails(s, j)
    ensures var t := After(s, j);
      && IsSound(t) && Conserves(rows, n, initial, t) && s.mapping.Keys <= t.mapping.Keys
      && (s.budget >= 0 ==> t.budget >= 0)
      && (|t.pq| < |s.pq| || (|t.pq| == |s.pq| && StaleCount(t, t.pq) < StaleCount(s, s.pq)))
  {
    hide Conserves, StaleCount;
    StepConserves(rows, n, initial, s, j);
    StepEnds(s, j);
  }

  lemma SumsUp(rows: seq<Row>, n: nat, initial: int, s: State)
    requires Conserves(rows, n, initial, s)
    ensures s.budget + Sum(s.size) == initial
  {
  }

  lemma Ends(rows: seq<Row>, n: nat, initial: int, run: seq<State>)
    requires IsInput(rows, n) && IsRun(rows, n, initial, run)
    ensures var s := run[|run| - 1];
      !FreesBudget(run) && s.pq == [] ==> |s.size| == |s.pruning| && IsLocallyMaximal(rows, s)
    ensures SizesNatural(rows) && PruningCosts(rows, false) ==> !FreesBudget(run)
    ensures SizesNatural(rows) && PruningCosts(rows, true) ==> !CanFail(run[|run| - 1]) && !FreesBudget(run)
    ensures SizesNatural(rows) && !PruningCosts(rows, true) && initial == EmptySize(rows) && run[|run| - 1].pq == [] ==>
      FreesBudget(run)
  {
    hide PruningCosts, SizesNatural, IsLocallyMaximal, CanFail, IsStep, FreesBudget;
    if !FreesBudget(run) && run[|run| - 1].pq == [] {
      KeptBudgetIsMaximal(rows, n, initial, run);
    }
    if SizesNatural(rows) && PruningCosts(rows, false) {
      NeverFreesAtAll(rows, n, initial, run);
    }
    if SizesNatural(rows) && PruningCosts(rows, true) {
      NeverFrees(rows, n, initial, run);
    }
    if SizesNatural(rows) && !PruningCosts(rows, true) && initial == EmptySize(rows) && run[|run| - 1].pq == [] {
      AlwaysFrees(rows, n, run);
    }
  }

  // ---------- inputs that go wrong ----------

  const LOST_ROWS := [Row(0, 0, 10, 0.0), Row(0, 1, 5, 1.0), Row(1, 0, 0, 0.0), Row(1, 1, 5, 5.0)]

  const LOST_START :=
    State(0, map[0 := 0, 1 := 0], [10, 0], [0.0, 0.0], [Entry(-0.2, LOST_ROWS[1]), Entry(-1.0, LOST_ROWS[3])])

  lemma LostIsInput()
    ensures IsInput(LOST_ROWS, 2)
  {
  }

  lemma LostStart()
    requires IsInput(LOST_ROWS, 2)
    ensures Start(LOST_ROWS, 2, 10, 4) == LOST_START
  {
    hide Start, IsInput;
    var rows := LOST_ROWS;
    StartStep(rows, 2, 10, 0);
    assert Start(rows, 2, 10, 0) == State(10, map[], [0, 0], [0.0, 0.0], []);
    StartStep(rows, 2, 10, 1);
    assert Start(rows, 2, 10, 1) == State(0, map[0 := 0], [10, 0], [0.0, 0.0], []);
    StartStep(rows, 2, 10, 2);
    assert RawKey(rows[1]) == -0.2;
    assert Start(rows, 2, 10, 2) == State(0, map[0 := 0], [10, 0], [0.0, 0.0], [Entry(-0.2, rows[1])]);
    StartStep(rows, 2, 10, 3);
    assert Start(rows, 2, 10, 3) == State(0, map[0 := 0, 1 := 0], [10, 0], [0.0, 0.0], [Entry(-0.2, rows[1])]);
    StartStep(rows, 2, 10, 4);
    assert RawKey(rows[3]) == -1.0;
  }

  lemma StartStep(rows: seq<Row>, n: nat, initial: int, j: nat)
    requires IsInput(rows, n) && j <= |rows|
    ensures Start(rows, n, initial, j) ==
      if j == 0 then State(initial, map[], seq(n, _ => 0), seq(n, _ => 0.0), [])
      else
        var s, r := Start(rows, n, initial, j - 1), rows[j - 1];
        if r.statistic == 0 then Begun(s, r) else Pushed(s, Entry(RawKey(r), r))
  {
  }

  lemma LostDrops()
    ensures IsStep(LOST_START, LOST_START.(pq := [Entry(-0.2, LOST_ROWS[1])]))
  {
    var s := LOST_START;
    assert IsLeast(s.pq, 1) && IsDropped(s, s.pq[1].row);
    assert After(s, 1) == s.(pq := [Entry(-0.2, LOST_ROWS[1])]);
  }

  lemma LostRekeys()
    ensures IsStep(LOST_START.(pq := [Entry(-0.2, LOST_ROWS[1])]), LOST_START.(pq := [Entry(0.2, LOST_ROWS[1])]))
  {
    var s := LOST_START.(pq := [Entry(-0.2, LOST_ROWS[1])]);
    assert IsLeast(s.pq, 0) && !IsDropped(s, s.pq[0].row) && Key(s, s.pq[0].row) == 0.2;
    assert After(s, 0) == LOST_START.(pq := [Entry(0.2, LOST_ROWS[1])]);
  }

  const LOST_END := State(5, map[0 := 1, 1 := 0], [5, 0], [1.0, 0.0], [])

  lemma LostTakes()
    ensures IsStep(LOST_START.(pq := [Entry(0.2, LOST_ROWS[1])]), LOST_END)
  {
    var s := LOST_START.(pq := [Entry(0.2, LOST_ROWS[1])]);
    assert IsLeast(s.pq, 0) && !IsDropped(s, s.pq[0].row) && Key(s, s.pq[0].row) == 0.2;
    assert After(s, 0) == LOST_END;
  }

  /** Where an option that prunes is smaller than what it replaces, the end need not be locally maximal: an option is
      dropped because it does not fit, and then another one frees the budget it would have needed. */
  lemma FreedBudgetIsLost() returns (run: seq<State>)
    ensures IsInput(LOST_ROWS, 2) && IsRun(LOST_ROWS, 2, 10, run)
    ensures var v := run[|run| - 1];
      v.pq == [] && |v.size| == |v.pruning| && !IsLocallyMaximal(LOST_ROWS, v)
  {
    hide IsStep, Start, IsInput;
    LostIsInput();
    LostStart();
    LostDrops();
    LostRekeys();
    LostTakes();
    var rows, s := LOST_ROWS, LOST_START;
    run := [s, s.(pq := [Entry(-0.2, rows[1])]), s.(pq := [Entry(0.2, rows[1])]), LOST_END];
    assert rows[3] in rows && LOST_END.size[1] == 0 && LOST_END.pruning[1] == 0.0;
  }

  const LEVEL_ROWS := [Row(0, 0, 5, 0.0), Row(0, 1, 5, 1.0)]

  lemma LevelIsInput()
    ensures IsInput(LEVEL_ROWS, 1) && EmptySize(LEVEL_ROWS) == 5
  {
    EmptySizeStart(LEVEL_ROWS);
    EmptySizeStep(LEVEL_ROWS, 0);
    EmptySizeStep(LEVEL_ROWS, 1);
    assert LEVEL_ROWS[..2] == LEVEL_ROWS;
  }

  const LEVEL_START := State(0, map[0 := 0], [5], [0.0], [Entry(-0.2, LEVEL_ROWS[1])])

  lemma LevelStart()
    requires IsInput(LEVEL_ROWS, 1)
    ensures Start(LEVEL_ROWS, 1, 5, 2) == LEVEL_START
  {
    hide Start, IsInput;
    var rows := LEVEL_ROWS;
    StartStep(rows, 1, 5, 0);
    assert Start(rows, 1, 5, 0) == State(5, map[], [0], [0.0], []);
    StartStep(rows, 1, 5, 1);
    assert Start(rows, 1, 5, 1) == State(0, map[0 := 0], [5], [0.0], []);
    StartStep(rows, 1, 5, 2);
    assert RawKey(rows[1]) == -0.2;
  }

  /** Where an option that prunes is as large as what it replaces, its new ratio is a division by zero. */
  lemma LevelDividesByZero()
    ensures IsInput(LEVEL_ROWS, 1) && EmptySize(LEVEL_ROWS) == 5 && CanFail(Start(LEVEL_ROWS, 1, 5, 2))
  {
    hide Start, IsInput, EmptySize;
    LevelIsInput();
    LevelStart();
    assert IsLeast(LEVEL_START.pq, 0) && Fails(LEVEL_START, 0);
  }

  const LATE_ROWS := [Row(0, 0, 9, 0.0), Row(0, 1, 10, 1.0), Row(1, 1, 1, 0.5)]

  const LATE_START :=
    State(1, map[0 := 0], [9, 0], [0.0, 0.0], [Entry(-0.1, LATE_ROWS[1]), Entry(-0.5, LATE_ROWS[2])])

  lemma LateIsInput()
    ensures IsInput(LATE_ROWS, 2) && SizesNatural(LATE_ROWS) && PruningCosts(LATE_ROWS, true)
  {
  }

  lemma LateStart()
    requires IsInput(LATE_ROWS, 2)
    ensures Start(LATE_ROWS, 2, 10, 3) == LATE_START
  {
    hide Start, IsInput;
    var rows := LATE_ROWS;
    StartStep(rows, 2, 10, 0);
    assert Start(rows, 2, 10, 0) == State(10, map[], [0, 0], [0.0, 0.0], []);
    StartStep(rows, 2, 10, 1);
    assert Start(rows, 2, 10, 1) == State(1, map[0 := 0], [9, 0], [0.0, 0.0], []);
    StartStep(rows, 2, 10, 2);
    assert RawKey(rows[1]) == -0.1;
    assert Start(rows, 2, 10, 2) == State(1, map[0 := 0], [9, 0], [0.0, 0.0], [Entry(-0.1, rows[1])]);
    StartStep(rows, 2, 10, 3);
    assert RawKey(rows[2]) == -0.5;
  }

  /** Where empty statistics take space, the loop need not end as the eager program does: an option waits with a ratio
      that still counts the space of the empty statistic, and one that gains less per byte is taken first. */
  lemma LateIsPassedOver() returns (run: seq<State>)
    ensures IsInput(LATE_ROWS, 2) && IsRun(LATE_ROWS, 2, 10, run) && PruningCosts(LATE_ROWS, true)
    ensures run[|run| - 1].pq == [] && run[|run| - 1].mapping == map[0 := 0, 1 := 1]
    ensures forall t :: IsEagerStep(LATE_ROWS, Erased(run[0]), t) ==> t.mapping == map[0 := 1] && t.budget == 0
  {
    hide Start, IsInput;
    LateIsInput();
    LateStart();
    var rows, s := LATE_ROWS, LATE_START;
    var t := State(0, map[0 := 0, 1 := 1], [9, 1], [0.0, 0.5], [Entry(-0.1, rows[1])]);
    assert IsLeast(s.pq, 1) && Key(s, rows[2]) == -0.5 && After(s, 1) == t;
    assert IsLeast(t.pq, 0) && IsDropped(t, rows[1]) && After(t, 0) == Erased(t);
    run := [s, t, Erased(t)];
    assert IsOpen(rows, Erased(s), rows[1]) && GainsMore(Erased(s), rows[1], rows[2]);
  }
}
