/** The lazy greedy assigner: options wait in a queue keyed by pruning per byte; an option whose key is out of date
    when it is popped goes back with its new key. Ratios are real numbers. Here are its states and its steps. */
module GreedyState {
  /** One line of the input. */
  datatype Row = Row(partition: nat, statistic: nat, size: int, pruning: real) {
    /** What the statistic counts for: the empty one counts for nothing. */
    function Power(): real {
      if statistic == 0 then 0.0 else pruning
    }
  }

  datatype Entry = Entry(key: real, row: Row)

  datatype State =
    State(budget: int, mapping: map<nat, nat>, size: seq<int>, pruning: seq<real>, pq: seq<Entry>)

  /** The lines name `n` partitions, no partition has a statistic twice, and no option is of size 0. */
  ghost predicate IsInput(rows: seq<Row>, n: nat) {
    && (forall j :: 0 <= j < |rows| ==> rows[j].partition < n && (rows[j].statistic != 0 ==> rows[j].size != 0))
    && (forall i, j :: 0 <= i < j < |rows| ==>
      rows[i].partition != rows[j].partition || rows[i].statistic != rows[j].statistic)
  }

  function Sum(s: seq<int>): int {
    if s == [] then 0 else Sum(s[..|s| - 1]) + s[|s| - 1]
  }

  lemma {:induction false} SumUpdate(s: seq<int>, p: nat, v: int)
    requires p < |s|
    ensures Sum(s[p := v]) == Sum(s) - s[p] + v
    decreases |s|
  {
    var n := |s| - 1;
    if p < n {
      SumUpdate(s[..n], p, v);
      assert s[p := v][..n] == s[..n][p := v];
    } else {
      assert s[p := v][..n] == s[..n];
    }
  }

  lemma {:induction false} SumZero(s: seq<int>)
    requires forall p :: 0 <= p < |s| ==> s[p] == 0
    ensures Sum(s) == 0
    decreases |s|
  {
    if s != [] {
      SumZero(s[..|s| - 1]);
    }
  }

  /** What the empty statistics take. */
  function EmptySize(rows: seq<Row>): int {
    if rows == [] then 0
    else EmptySize(rows[..|rows| - 1]) + (if rows[|rows| - 1].statistic == 0 then rows[|rows| - 1].size else 0)
  }

  lemma EmptySizeStart(rows: seq<Row>)
    ensures EmptySize(rows[..0]) == 0
  {
  }

  lemma EmptySizeStep(rows: seq<Row>, j: nat)
    requires j < |rows|
    ensures EmptySize(rows[..j + 1]) == EmptySize(rows[..j]) + (if rows[j].statistic == 0 then rows[j].size else 0)
  {
    assert rows[..j + 1][..j] == rows[..j];
  }

  // ---------- what every step keeps ----------

  /** Partition `p` has the size and power of the statistic it is mapped to. */
  ghost predicate Matches(rows: seq<Row>, s: State, p: nat)
    requires p < |s.size| == |s.pruning|
  {
    if p in s.mapping then IsRowOf(rows, p, s.mapping[p], s.size[p], s.pruning[p])
    else s.size[p] == 0 && s.pruning[p] == 0.0
  }

  ghost predicate IsRowOf(rows: seq<Row>, p: nat, statistic: nat, size: int, power: real) {
    exists r :: r in rows && r.partition == p && r.statistic == statistic && r.size == size && r.Power() == power
  }

  /** Budget and sizes add up to the initial budget, and mapping, sizes and powers match. */
  ghost predicate Conserves(rows: seq<Row>, n: nat, initial: int, s: State) {
    && |s.size| == |s.pruning| == n
    && s.budget + Sum(s.size) == initial
    && (forall p :: 0 <= p < n ==> Matches(rows, s, p))
    && (forall p :: p in s.mapping ==> p < n)
    && (forall j :: 0 <= j < |s.pq| ==>
      s.pq[j].row in rows && s.pq[j].row.partition < n && s.pq[j].row.statistic != 0)
  }

  function Change(s: State, r: Row): int
    requires r.partition < |s.size|
  {
    r.size - s.size[r.partition]
  }

  function Gain(s: State, r: Row): real
    requires r.partition < |s.pruning|
  {
    r.pruning - s.pruning[r.partition]
  }

  /** The option does not fit, or prunes no more than what is there. */
  predicate IsDropped(s: State, r: Row)
    requires r.partition < |s.size| == |s.pruning|
  {
    Change(s, r) > s.budget || Gain(s, r) <= 0.0
  }

  function Key(s: State, r: Row): real
    requires r.partition < |s.size| == |s.pruning| && Change(s, r) != 0
  {
    -Gain(s, r) / (Change(s, r) as real)
  }

  function Upgraded(s: State, r: Row): State
    requires r.partition < |s.size| == |s.pruning|
  {
    s.(budget := s.budget - Change(s, r), mapping := s.mapping[r.partition := r.statistic],
       size := s.size[r.partition := r.size], pruning := s.pruning[r.partition := r.pruning])
  }

  lemma UpgradeConserves(rows: seq<Row>, n: nat, initial: int, s: State, r: Row)
    requires Conserves(rows, n, initial, s) && r in rows && r.partition < n && r.statistic != 0
    ensures Conserves(rows, n, initial, Upgraded(s, r))
  {
    hide Sum;
    SumUpdate(s.size, r.partition, r.size);
    var u := Upgraded(s, r);
    forall p | 0 <= p < n ensures Matches(rows, u, p) {
      if p != r.partition {
        assert Matches(rows, s, p);
      }
    }
  }

  // ---------- out-of-date keys ----------

  predicate IsStale(s: State, e: Entry)
    requires |s.size| == |s.pruning|
  {
    e.row.partition >= |s.size| || Change(s, e.row) == 0 || e.key != Key(s, e.row)
  }

  function StaleCount(s: State, pq: seq<Entry>): nat
    requires |s.size| == |s.pruning|
  {
    if pq == [] then 0 else StaleCount(s, pq[..|pq| - 1]) + (if IsStale(s, pq[|pq| - 1]) then 1 else 0)
  }

  lemma {:induction false} StaleCountWithout(s: State, pq: seq<Entry>, j: nat)
    requires |s.size| == |s.pruning| && j < |pq|
    ensures StaleCount(s, pq[..j] + pq[j + 1..]) == StaleCount(s, pq) - (if IsStale(s, pq[j]) then 1 else 0)
    decreases |pq|
  {
    var n := |pq| - 1;
    var without := pq[..j] + pq[j + 1..];
    if j < n {
      StaleCountWithout(s, pq[..n], j);
      assert without[..|without| - 1] == pq[..n][..j] + pq[..n][j + 1..];
      assert without[|without| - 1] == pq[n];
    } else {
      assert without == pq[..n];
    }
  }

  // ---------- what has been dropped ----------

  ghost predicate Waits(pq: seq<Entry>, r: Row) {
    exists j :: 0 <= j < |pq| && pq[j].row == r
  }

  /** Every option, other than `popped`, is still in the queue or rightly dropped. */
  ghost predicate SettledBut(rows: seq<Row>, s: State, popped: set<Row>)
    requires |s.size| == |s.pruning|
  {
    forall r :: r in rows && r.statistic != 0 && r.partition < |s.size| && r !in popped ==>
      Waits(s.pq, r) || IsDropped(s, r)
  }

  ghost predicate Settled(rows: seq<Row>, s: State)
    requires |s.size| == |s.pruning|
  {
    SettledBut(rows, s, {})
  }

  lemma UpgradeKeepsSettled(rows: seq<Row>, s: State, r: Row)
    requires |s.size| == |s.pruning| && SettledBut(rows, s, {r}) && r.partition < |s.size|
    requires Change(s, r) >= 0 && !IsDropped(s, r)
    ensures Settled(rows, Upgraded(s, r))
  {
    var u := Upgraded(s, r);
    forall q | q in rows && q.statistic != 0 && q.partition < |s.size| && !Waits(s.pq, q) ensures IsDropped(u, q) {
      if q != r {
        assert IsDropped(s, q);
      }
    }
  }

  // ---------- queue steps ----------

  function Popped(s: State, j: nat): State
    requires j < |s.pq|
  {
    s.(pq := s.pq[..j] + s.pq[j + 1..])
  }

  function Pushed(s: State, e: Entry): State {
    s.(pq := s.pq + [e])
  }

  ghost predicate IsLeast(pq: seq<Entry>, j: nat) {
    j < |pq| && forall h :: 0 <= h < |pq| ==> pq[j].key <= pq[h].key
  }

  /** The loop divides by zero on the option at `j`. */
  ghost predicate Fails(s: State, j: nat)
    requires j < |s.pq| && |s.size| == |s.pruning| && s.pq[j].row.partition < |s.size|
  {
    !IsDropped(s, s.pq[j].row) && Change(s, s.pq[j].row) == 0
  }

  /** What the loop makes of the option at `j`: it drops it, puts it back with its current key, or takes it. */
  ghost function After(s: State, j: nat): State
    requires j < |s.pq| && |s.size| == |s.pruning| && s.pq[j].row.partition < |s.size| && !Fails(s, j)
  {
    var r := s.pq[j].row;
    if IsDropped(s, r) then Popped(s, j)
    else if s.pq[j].key != Key(s, r) then Pushed(Popped(s, j), Entry(Key(s, r), r))
    else Upgraded(Popped(s, j), r)
  }

  lemma PopConserves(rows: seq<Row>, n: nat, initial: int, s: State, j: nat)
    requires Conserves(rows, n, initial, s) && j < |s.pq|
    ensures Conserves(rows, n, initial, Popped(s, j))
  {
    forall p | 0 <= p < n ensures Matches(rows, Popped(s, j), p) {
      assert Matches(rows, s, p);
    }
  }

  lemma PopSettles(rows: seq<Row>, s: State, j: nat)
    requires |s.size| == |s.pruning| && Settled(rows, s) && j < |s.pq|
    ensures SettledBut(rows, Popped(s, j), {s.pq[j].row})
  {
    var u := Popped(s, j);
    forall r | r in rows && r.statistic != 0 && r.partition < |s.size| && r != s.pq[j].row && !IsDropped(u, r)
      ensures Waits(u.pq, r)
    {
      assert !IsDropped(s, r);
      var h :| 0 <= h < |s.pq| && s.pq[h].row == r;
      assert s.pq[h] == u.pq[if h < j then h else h - 1];
    }
  }

  lemma PushConserves(rows: seq<Row>, n: nat, initial: int, s: State, e: Entry)
    requires Conserves(rows, n, initial, s) && e.row in rows && e.row.partition < n && e.row.statistic != 0
    ensures Conserves(rows, n, initial, Pushed(s, e))
  {
    forall p | 0 <= p < n ensures Matches(rows, Pushed(s, e), p) {
      assert Matches(rows, s, p);
    }
  }

  lemma PushSettles(rows: seq<Row>, s: State, e: Entry)
    requires |s.size| == |s.pruning| && SettledBut(rows, s, {e.row})
    ensures Settled(rows, Pushed(s, e))
  {
    var u := Pushed(s, e);
    forall r | r in rows && r.statistic != 0 && r.partition < |s.size| && !IsDropped(u, r) ensures Waits(u.pq, r) {
      if r == e.row {
        assert u.pq[|s.pq|].row == r;
      } else {
        assert !IsDropped(s, r);
        var h :| 0 <= h < |s.pq| && s.pq[h].row == r;
        assert u.pq[h].row == r;
      }
    }
  }

  lemma DropSettles(rows: seq<Row>, s: State, r: Row)
    requires |s.size| == |s.pruning| && SettledBut(rows, s, {r}) && r.partition < |s.size| && IsDropped(s, r)
    ensures Settled(rows, s)
  {
  }

  /** Pushing an option back with its current key leaves one stale entry less. */
  lemma RekeyLowersStale(s: State, j: nat, key: real)
    requires |s.size| == |s.pruning| && j < |s.pq| && s.pq[j].row.partition < |s.size|
    requires var r := s.pq[j].row; Change(s, r) != 0 && key == Key(s, r) != s.pq[j].key
    ensures var pq := Pushed(Popped(s, j), Entry(key, s.pq[j].row)).pq; StaleCount(s, pq) == StaleCount(s, s.pq) - 1
  {
    StaleCountWithout(s, s.pq, j);
    var e := Entry(key, s.pq[j].row);
    var rest := Popped(s, j).pq;
    assert (rest + [e])[..|rest|] == rest;
  }

  /** Only sizes and powers decide what is stale. */
  lemma {:induction false} StaleCountSame(s: State, t: State, pq: seq<Entry>)
    requires |s.size| == |s.pruning| && s.size == t.size && s.pruning == t.pruning
    ensures StaleCount(s, pq) == StaleCount(t, pq)
    decreases |pq|
  {
    if pq != [] {
      StaleCountSame(s, t, pq[..|pq| - 1]);
    }
  }

  // ---------- reading the lines ----------

  /** The ratio an option starts with. */
  function RawKey(r: Row): real
    requires r.size != 0
  {
    -r.pruning / (r.size as real)
  }

  /** The state after the first `j` lines. */
  function Start(rows: seq<Row>, n: nat, initial: int, j: nat): (s: State)
    requires j <= |rows|
    requires forall i :: 0 <= i < j ==> rows[i].partition < n && (rows[i].statistic != 0 ==> rows[i].size != 0)
    ensures |s.size| == |s.pruning| == n
  {
    if j == 0 then State(initial, map[], seq(n, _ => 0), seq(n, _ => 0.0), [])
    else
      var s, r := Start(rows, n, initial, j - 1), rows[j - 1];
      if r.statistic == 0 then Begun(s, r) else Pushed(s, Entry(RawKey(r), r))
  }

  /** Empty statistics of the first `j` lines are in place, and the other options wait with their ratio. */
  ghost predicate IsRead(rows: seq<Row>, n: nat, initial: int, j: nat, s: State)
    requires j <= |rows|
  {
    && Conserves(rows, n, initial, s) && s.budget == initial - EmptySize(rows[..j])
    && (forall p :: p in s.mapping ==>
      s.mapping[p] == 0 && exists i :: 0 <= i < j && rows[i].partition == p && rows[i].statistic == 0)
    && (forall i :: 0 <= i < j && rows[i].statistic == 0 ==> rows[i].partition in s.mapping)
    && (forall i :: 0 <= i < j && rows[i].statistic != 0 ==> Waits(s.pq, rows[i]))
    && (forall h :: 0 <= h < |s.pq| ==>
      s.pq[h].row.size != 0 && s.pq[h].key == -s.pq[h].row.pruning / (s.pq[h].row.size as real))
  }

  /** The empty statistic is in place. */
  function Begun(s: State, r: Row): State
    requires r.partition < |s.size|
  {
    s.(budget := s.budget - r.size, mapping := s.mapping[r.partition := r.statistic],
       size := s.size[r.partition := r.size])
  }

  lemma BeginConserves(rows: seq<Row>, n: nat, initial: int, s: State, r: Row)
    requires Conserves(rows, n, initial, s) && r in rows && r.statistic == 0
    requires r.partition < n && r.partition !in s.mapping
    ensures Conserves(rows, n, initial, Begun(s, r))
  {
    hide Sum;
    assert Matches(rows, s, r.partition);
    SumUpdate(s.size, r.partition, r.size);
    var t := Begun(s, r);
    forall p | 0 <= p < n ensures Matches(rows, t, p) {
      if p != r.partition {
        assert Matches(rows, s, p);
      }
    }
  }

  lemma ReadsEmpty(rows: seq<Row>, n: nat, initial: int, j: nat, s: State)
    requires IsInput(rows, n) && j < |rows| && IsRead(rows, n, initial, j, s) && rows[j].statistic == 0
    ensures |s.size| == n && IsRead(rows, n, initial, j + 1, Begun(s, rows[j]))
  {
    hide Sum, Waits, EmptySize;
    EmptySizeStep(rows, j);
    assert rows[j].partition !in s.mapping;
    BeginConserves(rows, n, initial, s, rows[j]);
    assert |s.size| == n;
    hide Conserves;
  }

  lemma ReadsOption(rows: seq<Row>, n: nat, initial: int, j: nat, s: State)
    requires IsInput(rows, n) && j < |rows| && IsRead(rows, n, initial, j, s) && rows[j].statistic != 0
    ensures IsRead(rows, n, initial, j + 1, Pushed(s, Entry(RawKey(rows[j]), rows[j])))
  {
    hide Sum;
    var e := Entry(RawKey(rows[j]), rows[j]);
    var t := Pushed(s, e);
    EmptySizeStep(rows, j);
    PushConserves(rows, n, initial, s, e);
    assert t.pq[|s.pq|].row == rows[j];
    forall i | 0 <= i < j && rows[i].statistic != 0 ensures Waits(t.pq, rows[i]) {
      StillWaits(s, e, rows[i]);
    }
    hide Conserves, Waits;
  }

  lemma StillWaits(s: State, e: Entry, r: Row)
    requires Waits(s.pq, r)
    ensures Waits(Pushed(s, e).pq, r)
  {
    var h :| 0 <= h < |s.pq| && s.pq[h].row == r;
    assert Pushed(s, e).pq[h].row == r;
  }

  /** What reading makes of the lines. */
  lemma {:induction false} StartIsRead(rows: seq<Row>, n: nat, initial: int, j: nat)
    requires IsInput(rows, n) && j <= |rows|
    ensures IsRead(rows, n, initial, j, Start(rows, n, initial, j))
  {
    hide IsRead;
    if j == 0 {
      NothingRead(rows, n, initial);
    } else {
      StartIsRead(rows, n, initial, j - 1);
      var s := Start(rows, n, initial, j - 1);
      if rows[j - 1].statistic == 0 {
        ReadsEmpty(rows, n, initial, j - 1, s);
      } else {
        ReadsOption(rows, n, initial, j - 1, s);
      }
    }
  }

  lemma NothingRead(rows: seq<Row>, n: nat, initial: int)
    requires IsInput(rows, n)
    ensures IsRead(rows, n, initial, 0, State(initial, map[], seq(n, _ => 0), seq(n, _ => 0.0), []))
  {
    SumZero(seq(n, _ => 0));
  }

  // ---------- runs ----------

  /** Sizes and powers cover all partitions that wait. */
  ghost predicate IsSound(s: State) {
    |s.size| == |s.pruning| && forall j :: 0 <= j < |s.pq| ==> s.pq[j].row.partition < |s.size|
  }

  /** One round of the loop takes `s` to `t`. */
  ghost predicate IsStep(s: State, t: State) {
    IsSound(s) && exists j :: IsLeast(s.pq, j) && !Fails(s, j) && t == After(s, j)
  }

  /** The next round may divide by zero. */
  ghost predicate CanFail(s: State) {
    IsSound(s) && exists j :: IsLeast(s.pq, j) && Fails(s, j)
  }

  /** The states between the rounds of a run, up to its end or short of it. */
  ghost predicate IsRun(rows: seq<Row>, n: nat, initial: int, run: seq<State>)
    requires IsInput(rows, n)
  {
    && run != [] && run[0] == Start(rows, n, initial, |rows|)
    && forall k :: 0 < k < |run| ==> IsStep(run[k - 1], run[k])
  }

  ghost predicate FreesBudget(run: seq<State>) {
    exists k :: 0 < k < |run| && run[k - 1].budget < run[k].budget
  }

  /** No option both prunes more than what its partition has and fits. */
  ghost predicate IsLocallyMaximal(rows: seq<Row>, s: State)
    requires |s.size| == |s.pruning|
  {
    forall r :: r in rows && r.statistic != 0 && r.partition < |s.size| ==>
      r.pruning <= s.pruning[r.partition] || r.size - s.size[r.partition] > s.budget
  }

  lemma StepConserves(rows: seq<Row>, n: nat, initial: int, s: State, j: nat)
    requires Conserves(rows, n, initial, s) && j < |s.pq| && !Fails(s, j)
    ensures Conserves(rows, n, initial, After(s, j))
  {
    PopConserves(rows, n, initial, s, j);
    var r := s.pq[j].row;
    if !IsDropped(s, r) {
      if s.pq[j].key != Key(s, r) {
        PushConserves(rows, n, initial, Popped(s, j), Entry(Key(s, r), r));
      } else {
        UpgradeConserves(rows, n, initial, Popped(s, j), r);
      }
    }
  }

  /** A round leaves the queue shorter, or as long with one stale entry less. */
  lemma StepEnds(s: State, j: nat)
    requires IsSound(s) && j < |s.pq| && !Fails(s, j)
    ensures var t := After(s, j);
      && IsSound(t)
      && (|t.pq| < |s.pq| || (|t.pq| == |s.pq| && StaleCount(t, t.pq) < StaleCount(s, s.pq)))
  {
    var r, t := s.pq[j].row, After(s, j);
    if !IsDropped(s, r) && s.pq[j].key != Key(s, r) {
      RekeyLowersStale(s, j, Key(s, r));
      StaleCountSame(s, t, t.pq);
    }
  }
}
