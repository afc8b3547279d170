/** When the lazy greedy loop is safe: exactly when every option that prunes is larger than the empty statistic of its
    partition, no run frees budget or divides by zero. Then every run ends locally maximal. */
module GreedySafety {
  import opened GreedyState

  ghost predicate SizesNatural(rows: seq<Row>) {
    forall r :: r in rows ==> r.size >= 0
  }

  /** `q` is the empty statistic that option `r` can replace. */
  predicate IsEmptyOf(q: Row, r: Row) {
    q.partition == r.partition && q.statistic == 0 && r.statistic != 0
  }

  /** Every option that prunes is larger than the empty statistic of its partition, or at least no smaller. */
  ghost predicate PruningCosts(rows: seq<Row>, strictly: bool) {
    forall q, r :: q in rows && r in rows && IsEmptyOf(q, r) && r.pruning > 0.0 ==>
      if strictly then q.size < r.size else q.size <= r.size
  }

  // ---------- ratios ----------

  lemma RatioGrows(a: real, b: real, c: real, d: real)
    requires 0.0 < a < c && 0.0 < d <= b
    ensures a / b < c / d
  {
    var x, y := a / b, c / d;
    assert x * b == a && y * d == c;
    assert y <= x ==> y * d <= x * d <= x * b;
  }

  /** What is left of the lower of two ratios, once the upper is taken away, is lower still. */
  lemma Mediant(a: real, b: real, c: real, d: real)
    requires 0.0 < a < c && 0.0 < b && 0.0 < d && c / d <= a / b
    ensures b < d && (c - a) / (d - b) <= c / d
  {
    var x, y := a / b, c / d;
    assert x * b == a && y * d == c && 0.0 < y;
    assert y * b <= x * b;
    assert d <= b ==> y * d <= y * b;
    var z := (c - a) / (d - b);
    assert z * (d - b) == c - a <= y * d - y * b == y * (d - b);
    assert z > y ==> z * (d - b) > y * (d - b);
  }

  // ---------- what every round keeps ----------

  /** An option with more power than its partition has is larger than what the partition has. */
  ghost predicate PowerIsLarger(rows: seq<Row>, s: State, strictly: bool)
    requires |s.size| == |s.pruning|
  {
    && (forall p :: 0 <= p < |s.size| ==> s.size[p] >= 0 && s.pruning[p] >= 0.0)
    && forall r :: r in rows && r.statistic != 0 && r.partition < |s.size| && Gain(s, r) > 0.0 ==>
      if strictly then Change(s, r) > 0 else Change(s, r) >= 0
  }

  /** The option waits behind where its exact ratio would put it. */
  ghost predicate IsLate(s: State, e: Entry)
    requires e.row.partition < |s.size| == |s.pruning|
  {
    Gain(s, e.row) > 0.0 && (Change(s, e.row) == 0 || e.key > Key(s, e.row))
  }

  ghost predicate IsRaw(e: Entry) {
    e.row.size != 0 && e.key == RawKey(e.row)
  }

  /** Late options still have the ratio they started with. */
  ghost predicate LateIsRaw(s: State)
    requires IsSound(s)
  {
    forall h :: 0 <= h < |s.pq| && IsLate(s, s.pq[h]) ==> IsRaw(s.pq[h])
  }

  /** The one option prunes more and is no larger. */
  predicate Beats(q: Row, r: Row) {
    q.partition == r.partition && q.pruning > r.pruning && q.size <= r.size
  }

  ghost predicate LateBeats(s: State, e: Entry, f: Entry)
    requires e.row.partition < |s.size| == |s.pruning| && f.row.partition < |s.size|
  {
    IsLate(s, e) && Beats(e.row, f.row) && Gain(s, f.row) > 0.0
  }

  /** So do the options that a late one beats. */
  ghost predicate BeatenIsRaw(s: State)
    requires IsSound(s)
  {
    forall h, i :: 0 <= h < |s.pq| && 0 <= i < |s.pq| && LateBeats(s, s.pq[h], s.pq[i]) ==> IsRaw(s.pq[i])
  }

  ghost predicate IsSafe(rows: seq<Row>, s: State, strictly: bool) {
    IsSound(s) && Settled(rows, s) && PowerIsLarger(rows, s, strictly) && LateIsRaw(s) && BeatenIsRaw(s)
  }

  /** What both the input and the bookkeeping say about the options that wait. */
  ghost predicate IsFrom(rows: seq<Row>, n: nat, s: State) {
    && IsInput(rows, n) && SizesNatural(rows) && IsSound(s) && |s.size| == n
    && forall j :: 0 <= j < |s.pq| ==> s.pq[j].row in rows && s.pq[j].row.statistic != 0
  }

  /** What beats an option starts with the better ratio. */
  lemma BeatsRaw(rows: seq<Row>, n: nat, s: State, strictly: bool, q: Row, r: Row)
    requires IsFrom(rows, n, s) && PowerIsLarger(rows, s, strictly)
    requires q in rows && r in rows && q.statistic != 0 && r.statistic != 0 && Beats(q, r) && Gain(s, r) > 0.0
    ensures q.size != 0 && r.size != 0 && RawKey(q) < RawKey(r)
  {
    RatioGrows(r.pruning, r.size as real, q.pruning, q.size as real);
    assert RawKey(q) == -(q.pruning / (q.size as real)) && RawKey(r) == -(r.pruning / (r.size as real));
  }

  /** An option at the front of the queue is not beaten by a late one. */
  lemma FrontNotBeaten(rows: seq<Row>, n: nat, s: State, strictly: bool, j: nat, h: nat)
    requires IsFrom(rows, n, s) && IsSafe(rows, s, strictly) && IsLeast(s.pq, j) && h < |s.pq|
    requires IsLate(s, s.pq[h]) && Gain(s, s.pq[j].row) > 0.0
    ensures !Beats(s.pq[h].row, s.pq[j].row)
  {
    assert s.pq[j].key <= s.pq[h].key;
    if Beats(s.pq[h].row, s.pq[j].row) {
      assert LateBeats(s, s.pq[h], s.pq[j]);
      BeatsRaw(rows, n, s, strictly, s.pq[h].row, s.pq[j].row);
    }
  }

  lemma ExactKey(s: State, r: Row)
    requires r.partition < |s.size| == |s.pruning| && Change(s, r) != 0
    ensures Key(s, r) == -(Gain(s, r) / (Change(s, r) as real))
  {
  }

  /** After an upgrade, what has still more power is larger still. */
  lemma UpgradeIsLarger(rows: seq<Row>, n: nat, s: State, strictly: bool, j: nat, r: Row)
    requires IsFrom(rows, n, s) && IsSafe(rows, s, strictly) && IsLeast(s.pq, j)
    requires var o := s.pq[j].row; !IsDropped(s, o) && Change(s, o) > 0 && s.pq[j].key == Key(s, o)
    requires r in rows && r.statistic != 0 && r.partition == s.pq[j].row.partition && r.pruning > s.pq[j].row.pruning
    ensures s.pq[j].row.size < r.size
  {
    var o := s.pq[j].row;
    if r.size <= o.size {
      assert Gain(s, r) > Gain(s, o) > 0.0 && 0 <= Change(s, r) <= Change(s, o) <= s.budget;
      assert Waits(s.pq, r);
      var h :| 0 <= h < |s.pq| && s.pq[h].row == r;
      assert s.pq[j].key <= s.pq[h].key;
      if Change(s, r) > 0 {
        RatioGrows(Gain(s, o), Change(s, o) as real, Gain(s, r), Change(s, r) as real);
        ExactKey(s, o);
        ExactKey(s, r);
      }
      assert IsLate(s, s.pq[h]);
      FrontNotBeaten(rows, n, s, strictly, j, h);
    }
  }

  /** An upgrade makes no option late. */
  lemma LateWasLate(rows: seq<Row>, n: nat, s: State, strictly: bool, j: nat, h: nat)
    requires IsFrom(rows, n, s) && IsSafe(rows, s, strictly) && IsLeast(s.pq, j) && h < |s.pq|
    requires var o := s.pq[j].row; !IsDropped(s, o) && Change(s, o) > 0 && s.pq[j].key == Key(s, o)
    requires IsLate(Upgraded(Popped(s, j), s.pq[j].row), s.pq[h])
    ensures IsLate(s, s.pq[h])
  {
    var o, e := s.pq[j].row, s.pq[h];
    var u := Upgraded(Popped(s, j), o);
    if e.row.partition == o.partition && !IsLate(s, e) {
      var a, b, c, d := Gain(s, o), Change(s, o) as real, Gain(s, e.row), Change(s, e.row) as real;
      assert s.pq[j].key <= e.key <= Key(s, e.row);
      ExactKey(s, o);
      ExactKey(s, e.row);
      Mediant(a, b, c, d);
      assert Gain(u, e.row) == c - a && Change(u, e.row) as real == d - b;
      ExactKey(u, e.row);
    }
  }

  // ---------- the rounds ----------

  /** Without an entry, and with nothing else changed, the rest stays in order. */
  lemma DropIsSafe(rows: seq<Row>, s: State, strictly: bool, j: nat)
    requires IsSafe(rows, s, strictly) && j < |s.pq| && IsDropped(s, s.pq[j].row)
    ensures IsSafe(rows, Popped(s, j), strictly)
  {
    var t := Popped(s, j);
    assert IsDropped(t, s.pq[j].row);
    hide IsLate, Beats, IsRaw, IsDropped;
    PopSettles(rows, s, j);
    forall h | 0 <= h < |t.pq| ensures t.pq[h] == s.pq[Before(h, j)] && IsLate(t, t.pq[h]) == IsLate(s, t.pq[h]) {
      LateSame(s, t, t.pq[h]);
    }
    forall h, i | 0 <= h < |t.pq| && 0 <= i < |t.pq| && LateBeats(t, t.pq[h], t.pq[i]) ensures IsRaw(t.pq[i]) {
      assert LateBeats(s, s.pq[Before(h, j)], s.pq[Before(i, j)]);
    }
  }

  /** The place that an entry had before the one at `j` was popped. */
  function Before(h: nat, j: nat): nat {
    if h < j then h else h + 1
  }

  lemma LateSame(s: State, t: State, e: Entry)
    requires e.row.partition < |s.size| == |s.pruning| && s.size == t.size && s.pruning == t.pruning
    ensures IsLate(s, e) == IsLate(t, e)
  {
  }

  /** Nor does an entry with its exact key disturb anything. */
  lemma RekeyIsSafe(rows: seq<Row>, n: nat, s: State, strictly: bool, j: nat)
    requires IsFrom(rows, n, s) && IsSafe(rows, s, strictly) && IsLeast(s.pq, j)
    requires !IsDropped(s, s.pq[j].row) && Change(s, s.pq[j].row) != 0
    ensures IsSafe(rows, Pushed(Popped(s, j), Entry(Key(s, s.pq[j].row), s.pq[j].row)), strictly)
  {
    var o := s.pq[j].row;
    var new_ := Entry(Key(s, o), o);
    var t := Pushed(Popped(s, j), new_);
    assert !IsLate(t, new_);
    hide Beats, IsRaw, IsLate;
    PopSettles(rows, s, j);
    PushSettles(rows, Popped(s, j), new_);
    var last := |t.pq| - 1;
    forall h | 0 <= h < last ensures t.pq[h] == s.pq[Before(h, j)] && IsLate(t, t.pq[h]) == IsLate(s, t.pq[h]) {
      LateSame(s, t, t.pq[h]);
    }
    assert t.pq[last] == new_;
    forall h, i | 0 <= h < |t.pq| && 0 <= i < |t.pq| && LateBeats(t, t.pq[h], t.pq[i]) ensures IsRaw(t.pq[i]) {
      FrontNotBeaten(rows, n, s, strictly, j, Before(h, j));
      assert LateBeats(s, s.pq[Before(h, j)], s.pq[Before(i, j)]);
    }
  }

  lemma UpgradeIsSafe(rows: seq<Row>, n: nat, s: State, strictly: bool, j: nat)
    requires IsFrom(rows, n, s) && IsSafe(rows, s, strictly) && IsLeast(s.pq, j)
    requires var o := s.pq[j].row; !IsDropped(s, o) && Change(s, o) > 0 && s.pq[j].key == Key(s, o)
    ensures IsSafe(rows, Upgraded(Popped(s, j), s.pq[j].row), strictly)
  {
    UpgradedSettles(rows, s, j);
    UpgradedIsLarger(rows, n, s, strictly, j);
    UpgradedLateIsRaw(rows, n, s, strictly, j);
    UpgradedBeatenIsRaw(rows, n, s, strictly, j);
    hide Settled, PowerIsLarger, LateIsRaw, BeatenIsRaw;
  }

  lemma UpgradedLateIsRaw(rows: seq<Row>, n: nat, s: State, strictly: bool, j: nat)
    requires IsFrom(rows, n, s) && IsSafe(rows, s, strictly) && IsLeast(s.pq, j)
    requires var o := s.pq[j].row; !IsDropped(s, o) && Change(s, o) > 0 && s.pq[j].key == Key(s, o)
    ensures var u := Upgraded(Popped(s, j), s.pq[j].row);
      IsSound(u) && LateIsRaw(u) && forall h :: 0 <= h < |u.pq| && IsLate(u, u.pq[h]) ==> IsLate(s, u.pq[h])
  {
    hide IsRaw, IsLate, Settled, PowerIsLarger;
    var u := Upgraded(Popped(s, j), s.pq[j].row);
    forall h | 0 <= h < |u.pq| && IsLate(u, u.pq[h])
      ensures u.pq[h] == s.pq[Before(h, j)] && IsLate(s, u.pq[h])
    {
      LateWasLate(rows, n, s, strictly, j, Before(h, j));
    }
  }

  lemma UpgradedBeatenIsRaw(rows: seq<Row>, n: nat, s: State, strictly: bool, j: nat)
    requires IsFrom(rows, n, s) && IsSafe(rows, s, strictly) && IsLeast(s.pq, j)
    requires var o := s.pq[j].row; !IsDropped(s, o) && Change(s, o) > 0 && s.pq[j].key == Key(s, o)
    ensures var u := Upgraded(Popped(s, j), s.pq[j].row); IsSound(u) && BeatenIsRaw(u)
  {
    hide IsRaw, IsLate, Beats, Settled, PowerIsLarger;
    var u := Upgraded(Popped(s, j), s.pq[j].row);
    forall h, i | 0 <= h < |u.pq| && 0 <= i < |u.pq| && LateBeats(u, u.pq[h], u.pq[i]) ensures IsRaw(u.pq[i]) {
      LateWasLate(rows, n, s, strictly, j, Before(h, j));
      GainWas(s, j, u.pq[i].row);
      assert LateBeats(s, s.pq[Before(h, j)], s.pq[Before(i, j)]);
    }
  }

  lemma UpgradedSettles(rows: seq<Row>, s: State, j: nat)
    requires IsSound(s) && Settled(rows, s) && j < |s.pq|
    requires !IsDropped(s, s.pq[j].row) && Change(s, s.pq[j].row) > 0
    ensures Settled(rows, Upgraded(Popped(s, j), s.pq[j].row))
  {
    PopSettles(rows, s, j);
    UpgradeKeepsSettled(rows, Popped(s, j), s.pq[j].row);
  }

  /** What gains after an upgrade has gained before. */
  lemma GainWas(s: State, j: nat, r: Row)
    requires IsSound(s) && j < |s.pq| && !IsDropped(s, s.pq[j].row) && r.partition < |s.size|
    requires Gain(Upgraded(Popped(s, j), s.pq[j].row), r) > 0.0
    ensures Gain(s, r) > 0.0
  {
  }

  lemma UpgradedIsLarger(rows: seq<Row>, n: nat, s: State, strictly: bool, j: nat)
    requires IsFrom(rows, n, s) && IsSafe(rows, s, strictly) && IsLeast(s.pq, j)
    requires var o := s.pq[j].row; !IsDropped(s, o) && Change(s, o) > 0 && s.pq[j].key == Key(s, o)
    ensures PowerIsLarger(rows, Upgraded(Popped(s, j), s.pq[j].row), strictly)
  {
    var o := s.pq[j].row;
    var u := Upgraded(Popped(s, j), o);
    forall r | r in rows && r.statistic != 0 && r.partition < |s.size| && Gain(u, r) > 0.0
      ensures if strictly then Change(u, r) > 0 else Change(u, r) >= 0
    {
      if r.partition == o.partition {
        UpgradeIsLarger(rows, n, s, strictly, j, r);
      }
    }
  }

  /** A round keeps the order, frees no budget, and divides by zero only where options may be as large as what they
      replace. */
  lemma StepIsSafe(rows: seq<Row>, n: nat, s: State, strictly: bool, j: nat)
    requires IsFrom(rows, n, s) && IsSafe(rows, s, strictly) && IsLeast(s.pq, j)
    ensures strictly ==> !Fails(s, j)
    ensures !Fails(s, j) ==> IsSafe(rows, After(s, j), strictly) && After(s, j).budget <= s.budget
  {
    hide LateIsRaw, BeatenIsRaw, Settled;
    var o := s.pq[j].row;
    if IsDropped(s, o) {
      DropIsSafe(rows, s, strictly, j);
    } else if Change(s, o) != 0 {
      assert Change(s, o) > 0;
      if s.pq[j].key != Key(s, o) {
        RekeyIsSafe(rows, n, s, strictly, j);
      } else {
        UpgradeIsSafe(rows, n, s, strictly, j);
      }
    }
  }

  /** After reading, the order holds. */
  lemma StartIsSafe(rows: seq<Row>, n: nat, initial: int, strictly: bool)
    requires IsInput(rows, n) && SizesNatural(rows) && PruningCosts(rows, strictly)
    ensures IsSafe(rows, Start(rows, n, initial, |rows|), strictly)
  {
    var s := Start(rows, n, initial, |rows|);
    StartIsRead(rows, n, initial, |rows|);
    ReadIsLarger(rows, n, initial, strictly, s);
    ReadIsRaw(rows, n, initial, s);
  }

  lemma ReadIsRaw(rows: seq<Row>, n: nat, initial: int, s: State)
    requires IsRead(rows, n, initial, |rows|, s)
    ensures IsSound(s) && Settled(rows, s) && LateIsRaw(s) && BeatenIsRaw(s)
  {
    SoundOfConserves(rows, n, initial, s);
    ReadSettles(rows, n, initial, s);
    hide Settled;
    assert forall h :: 0 <= h < |s.pq| ==> IsRaw(s.pq[h]);
  }

  lemma ReadSettles(rows: seq<Row>, n: nat, initial: int, s: State)
    requires IsRead(rows, n, initial, |rows|, s)
    ensures Settled(rows, s)
  {
    hide Waits, IsDropped;
    forall r | r in rows && r.statistic != 0 && r.partition < |s.size| ensures Waits(s.pq, r) || IsDropped(s, r) {
      var i :| 0 <= i < |rows| && rows[i] == r;
      assert Waits(s.pq, rows[i]);
    }
  }

  lemma SoundOfConserves(rows: seq<Row>, n: nat, initial: int, s: State)
    requires Conserves(rows, n, initial, s)
    ensures IsSound(s) && |s.size| == n
  {
  }

  lemma ReadIsLarger(rows: seq<Row>, n: nat, initial: int, strictly: bool, s: State)
    requires IsInput(rows, n) && SizesNatural(rows) && PruningCosts(rows, strictly)
    requires IsRead(rows, n, initial, |rows|, s)
    ensures PowerIsLarger(rows, s, strictly)
  {
    forall p | 0 <= p < n ensures s.size[p] >= 0 && s.pruning[p] == 0.0 {
      assert Matches(rows, s, p);
      if p in s.mapping {
        var q :| q in rows && q.partition == p && q.statistic == 0 && q.size == s.size[p] && q.Power() == s.pruning[p];
      }
    }
    forall r | r in rows && r.statistic != 0 && r.partition < n && Gain(s, r) > 0.0
      ensures if strictly then Change(s, r) > 0 else Change(s, r) >= 0
    {
      assert Matches(rows, s, r.partition);
      if r.partition in s.mapping {
        var q :| q in rows && q.partition == r.partition && q.statistic == 0 && q.size == s.size[r.partition];
        assert IsEmptyOf(q, r);
      }
    }
  }

  // ---------- runs ----------

  lemma FromConserves(rows: seq<Row>, n: nat, initial: int, s: State)
    requires IsInput(rows, n) && SizesNatural(rows) && Conserves(rows, n, initial, s)
    ensures IsFrom(rows, n, s)
  {
  }

  lemma {:induction false} RunConserves(rows: seq<Row>, n: nat, initial: int, run: seq<State>, k: nat)
    requires IsInput(rows, n) && IsRun(rows, n, initial, run) && k < |run|
    ensures Conserves(rows, n, initial, run[k])
    decreases k
  {
    hide Conserves, IsStep, Fails, After;
    if k == 0 {
      StartConserves(rows, n, initial);
    } else {
      RunConserves(rows, n, initial, run, k - 1);
      var j := Taken(run[k - 1], run[k]);
      StepConserves(rows, n, initial, run[k - 1], j);
    }
  }

  /** The place of the option that a step is about. */
  lemma Taken(s: State, t: State) returns (j: nat)
    requires IsStep(s, t)
    ensures IsSound(s) && IsLeast(s.pq, j) && j < |s.pq| && !Fails(s, j) && t == After(s, j)
  {
    j :| IsLeast(s.pq, j) && !Fails(s, j) && t == After(s, j);
  }

  lemma StartConserves(rows: seq<Row>, n: nat, initial: int)
    requires IsInput(rows, n)
    ensures var s := Start(rows, n, initial, |rows|);
      Conserves(rows, n, initial, s) && s.budget == initial - EmptySize(rows)
  {
    StartIsRead(rows, n, initial, |rows|);
    assert rows[..|rows|] == rows;
  }

  lemma {:induction false} RunIsSafe(rows: seq<Row>, n: nat, initial: int, run: seq<State>, strictly: bool, k: nat)
    requires IsInput(rows, n) && SizesNatural(rows) && PruningCosts(rows, strictly)
    requires IsRun(rows, n, initial, run) && k < |run|
    ensures IsFrom(rows, n, run[k]) && IsSafe(rows, run[k], strictly) && (k > 0 ==> run[k].budget <= run[k - 1].budget)
    decreases k
  {
    hide PruningCosts, IsStep, Fails, After, IsSafe;
    RunConserves(rows, n, initial, run, k);
    FromConserves(rows, n, initial, run[k]);
    if k == 0 {
      StartIsSafe(rows, n, initial, strictly);
    } else {
      RunIsSafe(rows, n, initial, run, strictly, k - 1);
      var j := Taken(run[k - 1], run[k]);
      StepIsSafe(rows, n, run[k - 1], strictly, j);
    }
  }

  /** A round that frees no budget keeps every option waiting or rightly dropped. */
  lemma StepSettles(rows: seq<Row>, s: State, j: nat)
    requires IsSound(s) && Settled(rows, s) && j < |s.pq| && !Fails(s, j) && After(s, j).budget <= s.budget
    ensures IsSound(After(s, j)) && Settled(rows, After(s, j))
  {
    hide SettledBut;
    var t, r := Popped(s, j), s.pq[j].row;
    PopSettles(rows, s, j);
    StepEnds(s, j);
    if IsDropped(s, r) {
      DropSettles(rows, t, r);
    } else if s.pq[j].key != Key(s, r) {
      PushSettles(rows, t, Entry(Key(s, r), r));
    } else {
      UpgradeKeepsSettled(rows, t, r);
    }
  }

  lemma {:induction false} RunSettles(rows: seq<Row>, n: nat, initial: int, run: seq<State>, k: nat)
    requires IsInput(rows, n) && IsRun(rows, n, initial, run) && !FreesBudget(run) && k < |run|
    ensures IsSound(run[k]) && Settled(rows, run[k])
    decreases k
  {
    hide Settled, Start, IsStep, Conserves, IsRead, IsSound;
    if k == 0 {
      StartIsRead(rows, n, initial, |rows|);
      ReadIsRaw(rows, n, initial, run[0]);
    } else {
      RunSettles(rows, n, initial, run, k - 1);
      var j := Taken(run[k - 1], run[k]);
      StepSettles(rows, run[k - 1], j);
    }
  }

  lemma SettledIsMaximal(rows: seq<Row>, s: State)
    requires IsSound(s) && Settled(rows, s) && s.pq == []
    ensures IsLocallyMaximal(rows, s)
  {
  }

  /** On every table, a run that gets to its end without freeing budget is locally maximal. */
  lemma KeptBudgetIsMaximal(rows: seq<Row>, n: nat, initial: int, run: seq<State>)
    requires IsInput(rows, n) && IsRun(rows, n, initial, run) && !FreesBudget(run) && run[|run| - 1].pq == []
    ensures var s := run[|run| - 1]; |s.size| == |s.pruning| && IsLocallyMaximal(rows, s)
  {
    hide IsStep, Settled, FreesBudget;
    RunSettles(rows, n, initial, run, |run| - 1);
    SettledIsMaximal(rows, run[|run| - 1]);
  }

  /** Where options that prune are no smaller than what they replace, no run frees budget. */
  lemma NeverFreesAtAll(rows: seq<Row>, n: nat, initial: int, run: seq<State>)
    requires IsInput(rows, n) && SizesNatural(rows) && PruningCosts(rows, false) && IsRun(rows, n, initial, run)
    ensures !FreesBudget(run)
  {
    hide PruningCosts, IsSafe, IsFrom, IsStep;
    forall k | 0 < k < |run| ensures run[k].budget <= run[k - 1].budget {
      RunIsSafe(rows, n, initial, run, false, k);
    }
  }

  /** So there a run that gets to its end is locally maximal. */
  lemma EndIsMaximal(rows: seq<Row>, n: nat, initial: int, run: seq<State>)
    requires IsInput(rows, n) && SizesNatural(rows) && PruningCosts(rows, false)
    requires IsRun(rows, n, initial, run) && run[|run| - 1].pq == []
    ensures var s := run[|run| - 1]; |s.size| == |s.pruning| && IsLocallyMaximal(rows, s)
  {
    hide PruningCosts, FreesBudget, IsStep;
    NeverFreesAtAll(rows, n, initial, run);
    KeptBudgetIsMaximal(rows, n, initial, run);
  }

  /** Where options that prune are larger than what they replace, no run frees budget or divides by zero. */
  lemma NeverFrees(rows: seq<Row>, n: nat, initial: int, run: seq<State>)
    requires IsInput(rows, n) && SizesNatural(rows) && PruningCosts(rows, true) && IsRun(rows, n, initial, run)
    ensures !FreesBudget(run) && !CanFail(run[|run| - 1])
  {
    hide PruningCosts, Fails, IsSafe, IsFrom;
    forall k | 0 < k < |run| ensures run[k].budget <= run[k - 1].budget {
      RunIsSafe(rows, n, initial, run, true, k);
    }
    var s := run[|run| - 1];
    RunIsSafe(rows, n, initial, run, true, |run| - 1);
    if CanFail(s) {
      var j :| IsLeast(s.pq, j) && Fails(s, j);
      StepIsSafe(rows, n, s, true, j);
    }
  }

  // ---------- the other direction ----------

  lemma RunGoesOn(rows: seq<Row>, n: nat, initial: int, run: seq<State>, t: State)
    requires IsInput(rows, n) && IsRun(rows, n, initial, run) && IsStep(run[|run| - 1], t)
    ensures IsRun(rows, n, initial, run + [t])
    ensures run[|run| - 1].budget < t.budget ==> FreesBudget(run + [t])
  {
    hide IsStep;
    var longer := run + [t];
    assert longer[|run| - 1] == run[|run| - 1] && longer[|run|] == t;
    forall k | 0 < k < |longer| ensures IsStep(longer[k - 1], longer[k]) {
      if k < |run| {
        assert longer[k - 1] == run[k - 1] && longer[k] == run[k];
      }
    }
  }

  lemma {:induction false} Least(pq: seq<Entry>) returns (j: nat)
    requires pq != []
    ensures IsLeast(pq, j)
    decreases |pq|
  {
    if |pq| == 1 {
      j := 0;
    } else {
      j := Least(pq[..|pq| - 1]);
      if pq[|pq| - 1].key < pq[j].key {
        j := |pq| - 1;
      }
    }
  }

  /** With no budget left, an option that prunes more and is no larger waits. */
  ghost predicate IsOwed(s: State, o: Row) {
    && IsSound(s) && s.budget == 0 && o.partition < |s.size| && Waits(s.pq, o)
    && Gain(s, o) > 0.0 && Change(s, o) <= 0
  }

  lemma StaysOwed(s: State, o: Row, j: nat)
    requires IsOwed(s, o) && j < |s.pq| && !Fails(s, j) && After(s, j).budget <= s.budget
    ensures IsOwed(After(s, j), o)
  {
    var t, r := After(s, j), s.pq[j].row;
    var h :| 0 <= h < |s.pq| && s.pq[h].row == o;
    if IsDropped(s, r) {
      assert h != j;
      assert t.pq[if h < j then h else h - 1].row == o;
    } else {
      assert Change(s, r) < 0;
      assert s.pq[j].key != Key(s, r);
      assert t.pq[|t.pq| - 1].row == r;
      if h != j {
        assert t.pq[if h < j then h else h - 1].row == o;
      }
    }
    StepEnds(s, j);
  }

  /** Such an option is reached in the end, so budget is freed or a division by zero comes up. */
  lemma {:induction false} OwedIsPaid(rows: seq<Row>, n: nat, initial: int, run: seq<State>, o: Row)
    returns (longer: seq<State>)
    requires IsInput(rows, n) && IsRun(rows, n, initial, run) && IsOwed(run[|run| - 1], o)
    ensures IsRun(rows, n, initial, longer) && (FreesBudget(longer) || CanFail(longer[|longer| - 1]))
    decreases |run[|run| - 1].pq|, StaleCount(run[|run| - 1], run[|run| - 1].pq)
  {
    hide FreesBudget, Start, IsStep, Fails, After, Waits, StaleCount;
    var s := run[|run| - 1];
    WaitsSomewhere(s, o);
    var j := Least(s.pq);
    if Fails(s, j) {
      Takes(s, j);
      longer := run;
    } else {
      var t := After(s, j);
      Takes(s, j);
      RunGoesOn(rows, n, initial, run, t);
      if s.budget < t.budget {
        longer := run + [t];
      } else {
        StaysOwed(s, o, j);
        StepEnds(s, j);
        assert (run + [t])[|run|] == t;
        longer := OwedIsPaid(rows, n, initial, run + [t], o);
      }
    }
  }

  lemma Takes(s: State, j: nat)
    requires IsSound(s) && IsLeast(s.pq, j)
    ensures if Fails(s, j) then CanFail(s) else IsStep(s, After(s, j))
  {
  }

  lemma WaitsSomewhere(s: State, o: Row)
    requires Waits(s.pq, o)
    ensures s.pq != []
  {
  }

  /** If an option that prunes is no larger than what it replaces, then with a budget that the empty statistics use up,
      budget is freed or a division by zero comes up. */
  lemma FreesSometime(rows: seq<Row>, n: nat) returns (run: seq<State>)
    requires IsInput(rows, n) && SizesNatural(rows) && !PruningCosts(rows, true)
    ensures IsRun(rows, n, EmptySize(rows), run) && (FreesBudget(run) || CanFail(run[|run| - 1]))
  {
    var o := Owed(rows, n);
    run := OwedIsPaid(rows, n, EmptySize(rows), [Start(rows, n, EmptySize(rows), |rows|)], o);
  }

  lemma Owed(rows: seq<Row>, n: nat) returns (o: Row)
    requires IsInput(rows, n) && SizesNatural(rows) && !PruningCosts(rows, true)
    ensures IsOwed(Start(rows, n, EmptySize(rows), |rows|), o)
  {
    var q, r :| q in rows && r in rows && IsEmptyOf(q, r) && r.pruning > 0.0 && q.size >= r.size;
    var s := Start(rows, n, EmptySize(rows), |rows|);
    StartConserves(rows, n, EmptySize(rows));
    StartIsRead(rows, n, EmptySize(rows), |rows|);
    OwedAtStart(rows, n, EmptySize(rows), s, q, r);
    o := r;
  }

  lemma {:induction false} OwedThroughout(rows: seq<Row>, n: nat, initial: int, run: seq<State>, o: Row, k: nat)
    requires IsInput(rows, n) && IsRun(rows, n, initial, run) && !FreesBudget(run) && IsOwed(run[0], o) && k < |run|
    ensures IsOwed(run[k], o)
    decreases k
  {
    hide Start, IsStep, IsOwed;
    if k > 0 {
      OwedThroughout(rows, n, initial, run, o, k - 1);
      var j := Taken(run[k - 1], run[k]);
      StaysOwed(run[k - 1], o, j);
    }
  }

  /** With that budget, every run that gets to its end has freed budget, however ties are broken. */
  lemma AlwaysFrees(rows: seq<Row>, n: nat, run: seq<State>)
    requires IsInput(rows, n) && SizesNatural(rows) && !PruningCosts(rows, true)
    requires IsRun(rows, n, EmptySize(rows), run) && run[|run| - 1].pq == []
    ensures FreesBudget(run)
  {
    hide PruningCosts, IsStep;
    if !FreesBudget(run) {
      var o := Owed(rows, n);
      OwedThroughout(rows, n, EmptySize(rows), run, o, |run| - 1);
    }
  }

  lemma OwedAtStart(rows: seq<Row>, n: nat, initial: int, s: State, q: Row, r: Row)
    requires IsInput(rows, n) && IsRead(rows, n, initial, |rows|, s) && s.budget == 0
    requires q in rows && r in rows && IsEmptyOf(q, r) && r.pruning > 0.0 && q.size >= r.size
    ensures IsOwed(s, r)
  {
    SoundOfConserves(rows, n, initial, s);
    var i :| 0 <= i < |rows| && rows[i] == r;
    assert Waits(s.pq, rows[i]);
    var k :| 0 <= k < |rows| && rows[k] == q;
    assert rows[k].partition in s.mapping && Matches(rows, s, r.partition);
    var z :| z in rows && z.partition == r.partition && z.statistic == 0 && z.size == s.size[r.partition]
      && z.Power() == s.pruning[r.partition];
    var l :| 0 <= l < |rows| && rows[l] == z;
    assert l == k;
  }

  /** The lazy greedy loop frees no budget and never divides by zero, whatever the budget and however ties are broken,
      exactly if every option that prunes is larger than the empty statistic of its partition. */
  lemma SafeExactly(rows: seq<Row>, n: nat)
    requires IsInput(rows, n) && SizesNatural(rows)
    ensures PruningCosts(rows, true) <==>
      forall initial, run :: EmptySize(rows) <= initial && IsRun(rows, n, initial, run) ==>
        !FreesBudget(run) && !CanFail(run[|run| - 1])
  {
    hide FreesBudget, CanFail, PruningCosts, IsStep;
    if PruningCosts(rows, true) {
      forall initial, run | EmptySize(rows) <= initial && IsRun(rows, n, initial, run)
        ensures !FreesBudget(run) && !CanFail(run[|run| - 1])
      {
        NeverFrees(rows, n, initial, run);
      }
    } else {
      var run := FreesSometime(rows, n);
    }
  }
}
