/** What the lazy greedy loop stands for: taking, again and again, an option with the best ratio of all that prune more
    and fit, with all ratios up to date. The loop does so where the empty statistics of what prunes are free. */
module EagerGreedy {
  import opened GreedyState
  import opened GreedySafety

  /** An option that prunes more than what its partition has, and fits. */
  ghost predicate IsOpen(rows: seq<Row>, s: State, r: Row)
    requires |s.size| == |s.pruning|
  {
    && r in rows && r.statistic != 0 && r.partition < |s.size|
    && r.pruning > s.pruning[r.partition] && r.size - s.size[r.partition] <= s.budget
  }

  /** Per byte, `r` gains more than `o`; both are larger than what they replace. */
  predicate GainsMore(s: State, r: Row, o: Row)
    requires r.partition < |s.size| == |s.pruning| && o.partition < |s.size|
  {
    Gain(s, r) * Change(s, o) as real > Gain(s, o) * Change(s, r) as real
  }

  /** The queue aside, which the eager program does not have. */
  function Erased(s: State): State {
    s.(pq := [])
  }

  ghost predicate IsEagerStep(rows: seq<Row>, s: State, t: State) {
    |s.size| == |s.pruning| && exists o :: IsOpen(rows, s, o) && IsBest(rows, s, o) && t == Upgraded(s, o)
  }

  ghost predicate IsBest(rows: seq<Row>, s: State, o: Row)
    requires o.partition < |s.size| == |s.pruning|
  {
    forall r :: IsOpen(rows, s, r) ==> !GainsMore(s, r, o)
  }

  /** The eager program gets from `s` to `t`, and if `done`, nothing is open there any more. */
  ghost predicate IsEagerRun(rows: seq<Row>, s: State, t: State, done: bool, run: seq<State>) {
    && run != [] && run[0] == s && run[|run| - 1] == t
    && (forall k :: 0 < k < |run| ==> IsEagerStep(rows, run[k - 1], run[k]))
    && (done ==> |t.size| == |t.pruning| && forall r :: !IsOpen(rows, t, r))
  }

  /** The empty statistics that options which prune can replace take no space. */
  ghost predicate EmptyIsFree(rows: seq<Row>) {
    forall q, r :: q in rows && r in rows && IsEmptyOf(q, r) && r.pruning > 0.0 ==> q.size == 0
  }

  lemma FreeCosts(rows: seq<Row>, n: nat)
    requires IsInput(rows, n) && SizesNatural(rows) && EmptyIsFree(rows)
    ensures PruningCosts(rows, true)
  {
  }

  // ---------- one round ----------

  lemma NoMore(a: real, b: real, c: real, d: real)
    requires 0.0 < b && 0.0 < d && -a / b <= -c / d
    ensures c * b <= a * d
  {
    var x, y := -a / b, -c / d;
    assert x * b == -a && y * d == -c;
    assert x * (b * d) <= y * (b * d);
    assert x * (b * d) == x * b * d && y * (b * d) == y * d * b;
  }

  /** The option at the front is taken. */
  ghost predicate IsTaken(s: State, j: nat)
    requires IsSound(s) && j < |s.pq|
  {
    var o := s.pq[j].row;
    !IsDropped(s, o) && Change(s, o) != 0 && s.pq[j].key == Key(s, o)
  }

  /** What gains more per byte than the option that is taken still waits with the ratio it started with. */
  lemma BestButRaw(rows: seq<Row>, s: State, j: nat, r: Row)
    requires IsSafe(rows, s, true) && IsLeast(s.pq, j) && IsTaken(s, j) && s.pq[j].row in rows
    requires s.pq[j].row.statistic != 0 && IsOpen(rows, s, r) && GainsMore(s, r, s.pq[j].row)
    ensures exists h :: 0 <= h < |s.pq| && s.pq[h].row == r && IsLate(s, s.pq[h]) && IsRaw(s.pq[h])
  {
    hide BeatenIsRaw, IsRaw, GainsMore, IsLate;
    var o := s.pq[j].row;
    assert Waits(s.pq, r);
    var h :| 0 <= h < |s.pq| && s.pq[h].row == r;
    assert Change(s, o) > 0 && Change(s, r) > 0 && Gain(s, r) > 0.0;
    if !IsLate(s, s.pq[h]) {
      hide IsSafe, Waits, PowerIsLarger;
      OnTimeIsNoBetter(s, j, h);
    }
  }

  lemma OnTimeIsNoBetter(s: State, j: nat, h: nat)
    requires IsSound(s) && IsLeast(s.pq, j) && IsTaken(s, j) && h < |s.pq| && !IsLate(s, s.pq[h])
    requires Change(s, s.pq[j].row) > 0 && Change(s, s.pq[h].row) > 0 && Gain(s, s.pq[h].row) > 0.0
    ensures !GainsMore(s, s.pq[h].row, s.pq[j].row)
  {
    var o, r := s.pq[j].row, s.pq[h].row;
    assert s.pq[j].key <= s.pq[h].key <= Key(s, r);
    NoMore(Gain(s, o), Change(s, o) as real, Gain(s, r), Change(s, r) as real);
  }

  // ---------- without late options ----------

  ghost predicate NoneLate(s: State) {
    IsSound(s) && forall h :: 0 <= h < |s.pq| ==> !IsLate(s, s.pq[h])
  }

  lemma StartsOnTime(rows: seq<Row>, n: nat, initial: int)
    requires IsInput(rows, n) && SizesNatural(rows) && EmptyIsFree(rows)
    ensures NoneLate(Start(rows, n, initial, |rows|))
  {
    var s := Start(rows, n, initial, |rows|);
    StartIsRead(rows, n, initial, |rows|);
    StartConserves(rows, n, initial);
    SoundOfConserves(rows, n, initial, s);
    hide Start, IsLate;
    forall h | 0 <= h < |s.pq| ensures !IsLate(s, s.pq[h]) {
      ReadOnTime(rows, n, initial, s, h);
    }
  }

  lemma ReadOnTime(rows: seq<Row>, n: nat, initial: int, s: State, h: nat)
    requires EmptyIsFree(rows) && IsRead(rows, n, initial, |rows|, s) && h < |s.pq|
    ensures IsSound(s) && !IsLate(s, s.pq[h])
  {
    var r := s.pq[h].row;
    assert Matches(rows, s, r.partition);
    hide EmptySize, Sum, Waits;
    if r.pruning > 0.0 && r.partition in s.mapping {
      var q :| q in rows && q.partition == r.partition && q.statistic == 0 && q.size == s.size[r.partition]
        && q.Power() == s.pruning[r.partition];
      assert IsEmptyOf(q, r);
    }
  }

  /** A round brings no option behind its exact ratio. */
  lemma StaysOnTime(rows: seq<Row>, n: nat, s: State, j: nat)
    requires IsFrom(rows, n, s) && IsSafe(rows, s, true) && IsLeast(s.pq, j) && !Fails(s, j) && NoneLate(s)
    ensures NoneLate(After(s, j))
  {
    var o, t := s.pq[j].row, After(s, j);
    hide IsSafe, IsFrom, IsLate;
    StepEnds(s, j);
    forall h | 0 <= h < |t.pq| ensures !IsLate(t, t.pq[h]) {
      if IsDropped(s, o) {
        LateSame(s, t, t.pq[h]);
      } else if s.pq[j].key != Key(s, o) {
        if h == |t.pq| - 1 {
          ExactIsOnTime(s, t, o);
        } else {
          LateSame(s, t, t.pq[h]);
        }
      } else if IsLate(t, t.pq[h]) {
        TakenIsLarger(rows, s, j);
        assert t.pq[h] == s.pq[Before(h, j)];
        LateWasLate(rows, n, s, true, j, Before(h, j));
      }
    }
  }

  lemma ExactIsOnTime(s: State, t: State, o: Row)
    requires o.partition < |s.size| == |s.pruning| && s.size == t.size && s.pruning == t.pruning && Change(s, o) != 0
    ensures !IsLate(t, Entry(Key(s, o), o))
  {
  }

  lemma TakenIsLarger(rows: seq<Row>, s: State, j: nat)
    requires IsSafe(rows, s, true) && j < |s.pq| && s.pq[j].row in rows && s.pq[j].row.statistic != 0
    requires !IsDropped(s, s.pq[j].row)
    ensures Change(s, s.pq[j].row) > 0
  {
  }

  lemma {:induction false} RunIsOnTime(rows: seq<Row>, n: nat, initial: int, run: seq<State>, k: nat)
    requires IsInput(rows, n) && SizesNatural(rows) && EmptyIsFree(rows) && IsRun(rows, n, initial, run) && k < |run|
    ensures IsFrom(rows, n, run[k]) && IsSafe(rows, run[k], true) && NoneLate(run[k])
    decreases k
  {
    FreeCosts(rows, n);
    hide EmptyIsFree, PruningCosts, Start, IsStep, Fails, After, IsSafe, IsFrom, NoneLate;
    RunIsSafe(rows, n, initial, run, true, k);
    if k == 0 {
      StartsOnTime(rows, n, initial);
    } else {
      RunIsOnTime(rows, n, initial, run, k - 1);
      var j := Taken(run[k - 1], run[k]);
      StaysOnTime(rows, n, run[k - 1], j);
    }
  }

  // ---------- the lazy loop is the eager program ----------

  /** A round changes nothing but the queue, or is a step of the eager program. */
  lemma RoundIsEager(rows: seq<Row>, n: nat, s: State, j: nat)
    requires IsFrom(rows, n, s) && IsSafe(rows, s, true) && NoneLate(s) && IsLeast(s.pq, j) && !Fails(s, j)
    ensures var t := After(s, j); Erased(t) == Erased(s) || IsEagerStep(rows, Erased(s), Erased(t))
  {
    var o, t := s.pq[j].row, After(s, j);
    hide IsLate, IsRaw, IsSafe;
    if IsTaken(s, j) {
      forall r | IsOpen(rows, Erased(s), r) ensures !GainsMore(Erased(s), r, o) {
        if GainsMore(s, r, o) {
          BestButRaw(rows, s, j, r);
        }
      }
      assert IsOpen(rows, Erased(s), o) && Erased(t) == Upgraded(Erased(s), o);
    }
  }

  lemma {:induction false} LazyIsEager(rows: seq<Row>, n: nat, initial: int, run: seq<State>, k: nat)
    returns (eager: seq<State>)
    requires IsInput(rows, n) && SizesNatural(rows) && EmptyIsFree(rows) && IsRun(rows, n, initial, run) && k < |run|
    ensures IsEagerRun(rows, Erased(run[0]), Erased(run[k]), run[k].pq == [], eager)
    decreases k
  {
    hide EmptyIsFree, Start, IsStep, Fails, After, IsOpen, IsEagerStep;
    RunIsOnTime(rows, n, initial, run, k);
    if k == 0 {
      eager := [Erased(run[0])];
    } else {
      eager := LazyIsEager(rows, n, initial, run, k - 1);
      RunIsOnTime(rows, n, initial, run, k - 1);
      var j := Taken(run[k - 1], run[k]);
      RoundIsEager(rows, n, run[k - 1], j);
      if Erased(run[k]) != Erased(run[k - 1]) {
        eager := eager + [Erased(run[k])];
      }
    }
    NothingOpen(rows, run[k]);
  }

  lemma NothingOpen(rows: seq<Row>, s: State)
    requires IsSafe(rows, s, true)
    ensures |s.size| == |s.pruning| && (s.pq == [] ==> forall r :: !IsOpen(rows, Erased(s), r))
  {
    hide PowerIsLarger, LateIsRaw, BeatenIsRaw;
  }
}
