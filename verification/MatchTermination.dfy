/** Match terminates on every grammar without left recursion and without nullable bodies under a repeat. */
module MatchTermination {
  import opened MatcherGraph
  import opened MatchRun

  /** `nullable` contains every matcher that can succeed without reading a token, and `rank` goes down along every
      reference that can be followed before a token is read. */
  ghost predicate Progressive(g: Graph, nullable: set<Id>, rank: seq<nat>) {
    Closed(g) && |rank| == |g| && forall m :: 0 <= m < |g| ==> ProgressiveAt(g, nullable, rank, m)
  }

  ghost predicate AllNullable(cs: seq<Id>, nullable: set<Id>) {
    forall k :: 0 <= k < |cs| ==> cs[k] in nullable
  }

  ghost predicate ProgressiveAt(g: Graph, nullable: set<Id>, rank: seq<nat>, m: Id)
    requires m < |g| == |rank| && RefersBelow(g[m], |g|)
  {
    match g[m]
    case Leaf(_) => true
    case List(cs) =>
      && (forall k :: 0 <= k < |cs| && AllNullable(cs[..k], nullable) ==> rank[cs[k]] < rank[m])
      && (AllNullable(cs, nullable) ==> m in nullable)
    case Optional(c) => rank[c] < rank[m] && m in nullable
    case Choice(cs) =>
      forall k :: 0 <= k < |cs| ==> rank[cs[k]] < rank[m] && (cs[k] in nullable ==> m in nullable)
    case Repeat(c) => rank[c] < rank[m] && c !in nullable
  }

  // ---------- more fuel does not change an outcome ----------

  lemma {:induction false} MoreFuel(x: Input, m: Id, i: nat, added: set<Id>, f: nat, f': nat)
    requires CanStart(x, m, i) && f <= f' && Run(x, m, i, added, f).Done?
    ensures Run(x, m, i, added, f') == Run(x, m, i, added, f)
    decreases f, 0, 0
  {
    assert RefersBelow(x.g[m], |x.g|);
    match x.g[m]
    case Leaf(_) =>
    case List(cs) => MoreFuelItems(x, cs, i, i, {}, f - 1, f' - 1);
    case Optional(c) => MoreFuel(x, c, i, {}, f - 1, f' - 1);
    case Choice(cs) => MoreFuelChoice(x, cs, i, f - 1, f' - 1);
    case Repeat(c) =>
      MoreFuel(x, c, i, {}, f - 1, f' - 1);
      var r := Run(x, c, i, {}, f - 1);
      if r.success {
        MoreFuelRepeat(x, c, r.index, r.added, added, f - 1, f' - 1);
      }
  }

  lemma {:induction false} MoreFuelItems(x: Input, cs: seq<Id>, start: nat, i: nat, added: set<Id>, f: nat, f': nat)
    requires x.Valid() && start <= i <= |x.tokens| && forall k :: 0 <= k < |cs| ==> cs[k] < |x.g|
    requires f <= f' && RunItems(x, cs, start, i, added, f).Done?
    ensures RunItems(x, cs, start, i, added, f') == RunItems(x, cs, start, i, added, f)
    decreases f, 1, |cs|
  {
    if cs != [] && i < |x.tokens| {
      MoreFuel(x, cs[0], i, added, f, f');
      var r := Run(x, cs[0], i, added, f);
      if r.success {
        MoreFuelItems(x, cs[1..], start, r.index, r.added, f, f');
      }
    }
  }

  lemma {:induction false} MoreFuelChoice(x: Input, cs: seq<Id>, i: nat, f: nat, f': nat)
    requires x.Valid() && i < |x.tokens| && forall k :: 0 <= k < |cs| ==> cs[k] < |x.g|
    requires f <= f' && RunChoice(x, cs, i, f).Done?
    ensures RunChoice(x, cs, i, f') == RunChoice(x, cs, i, f)
    decreases f, 1, |cs|
  {
    if cs != [] {
      MoreFuel(x, cs[0], i, {}, f, f');
      if !Run(x, cs[0], i, {}, f).success {
        MoreFuelChoice(x, cs[1..], i, f, f');
      }
    }
  }

  lemma {:induction false} MoreFuelRepeat(x: Input, c: Id, i: nat, inner: set<Id>, added: set<Id>, f: nat, f': nat)
    requires x.Valid() && c < |x.g| && i <= |x.tokens| && f <= f' && RunRepeat(x, c, i, inner, added, f).Done?
    ensures RunRepeat(x, c, i, inner, added, f') == RunRepeat(x, c, i, inner, added, f)
    decreases f, 1, 0
  {
    if i < |x.tokens| {
      MoreFuel(x, c, i, inner, f - 1, f' - 1);
      var r := Run(x, c, i, inner, f - 1);
      if r.success {
        MoreFuelRepeat(x, c, r.index, r.added, added, f - 1, f' - 1);
      }
    }
  }

  // ---------- termination ----------

  lemma {:induction false} OptionalIsInNullable(g: Graph, nullable: set<Id>, rank: seq<nat>, m: Id, added: set<Id>)
    requires Progressive(g, nullable, rank) && m < |g| && !Suggest(g, m, added).mandatory
    ensures m in nullable
    decreases Ids(|g|) - added, 0, 0
  {
    assert RefersBelow(g[m], |g|) && ProgressiveAt(g, nullable, rank, m);
    match g[m]
    case List(cs) => OptionalItemsAreInNullable(g, nullable, rank, cs, added + {m});
    case _ =>
  }

  lemma {:induction false} OptionalItemsAreInNullable(
    g: Graph, nullable: set<Id>, rank: seq<nat>, cs: seq<Id>, added: set<Id>)
    requires Progressive(g, nullable, rank) && forall i :: 0 <= i < |cs| ==> cs[i] < |g|
    requires !SuggestInOrder(g, cs, added).mandatory
    ensures AllNullable(cs, nullable)
    decreases Ids(|g|) - added, 1, |cs|
  {
    if cs != [] {
      OptionalIsInNullable(g, nullable, rank, cs[0], added);
      OptionalItemsAreInNullable(g, nullable, rank, cs[1..], Suggest(g, cs[0], added).added);
      forall k | 0 <= k < |cs| ensures cs[k] in nullable {
        if k > 0 { assert cs[1..][k - 1] in nullable; }
      }
    }
  }

  /** There is a depth at which the run is finished, and a match without progress is by a nullable matcher.
      The measure is the number of tokens left, then the rank. */
  lemma {:induction false} Terminates(
    x: Input, nullable: set<Id>, rank: seq<nat>, m: Id, i: nat, added: set<Id>) returns (fuel: nat)
    requires Progressive(x.g, nullable, rank) && CanStart(x, m, i)
    ensures var r := Run(x, m, i, added, fuel); r.Done? && (r.success && r.index == i ==> m in nullable)
    decreases |x.tokens| - i, rank[m]
  {
    assert RefersBelow(x.g[m], |x.g|) && ProgressiveAt(x.g, nullable, rank, m);
    match x.g[m]
    case Leaf(_) =>
      fuel := 1;
    case List(cs) =>
      var f := ItemsTerminate(x, nullable, rank, cs, rank[m], 0, i, i, {});
      fuel := f + 1;
      assert cs[0..] == cs;
    case Optional(c) =>
      var f := Terminates(x, nullable, rank, c, i, {});
      fuel := f + 1;
    case Choice(cs) =>
      var f := ChoiceTerminates(x, nullable, rank, m, 0, i);
      fuel := f + 1;
      assert cs[0..] == cs;
    case Repeat(c) =>
      var f := Terminates(x, nullable, rank, c, i, {});
      fuel := f + 1;
      var r := Run(x, c, i, {}, f);
      if r.success {
        var f' := RepeatTerminates(x, nullable, rank, c, r.index, i, rank[m], r.added, added);
        fuel := f + f' + 1;
        MoreFuel(x, c, i, {}, f, f + f');
        MoreFuelRepeat(x, c, r.index, r.added, added, f', f + f');
      }
  }

  /** The tokens run out before the list does. */
  lemma ItemsRunOut(x: Input, nullable: set<Id>, rank: seq<nat>, cs: seq<Id>, k: nat, start: nat, added: set<Id>)
    requires Progressive(x.g, nullable, rank) && (forall j :: 0 <= j < |cs| ==> cs[j] < |x.g|)
    requires k < |cs| && start <= |x.tokens| && (|x.tokens| > start || AllNullable(cs[..k], nullable))
    ensures var r := RunItems(x, cs[k..], start, |x.tokens|, added, 0);
      r.Done? && (r.success && r.index == start ==> AllNullable(cs, nullable))
  {
    if !SuggestInOrder(x.g, cs[k..], added).mandatory && |x.tokens| == start {
      OptionalItemsAreInNullable(x.g, nullable, rank, cs[k..], added);
      assert cs == cs[..k] + cs[k..];
    }
  }

  /** The outcome of a list from its next element and the elements behind it, at one depth for both. */
  lemma ItemsGoOn(x: Input, cs: seq<Id>, k: nat, start: nat, i: nat, added: set<Id>, f: nat, f': nat)
    requires x.Valid() && (forall j :: 0 <= j < |cs| ==> cs[j] < |x.g|) && k < |cs| && start <= i < |x.tokens|
    requires var r := Run(x, cs[k], i, added, f);
      r.Done? && (r.success ==> RunItems(x, cs[k + 1..], start, r.index, r.added, f').Done?)
    ensures var r := Run(x, cs[k], i, added, f);
      RunItems(x, cs[k..], start, i, added, f + f') ==
      if r.success then RunItems(x, cs[k + 1..], start, r.index, r.added, f').After(r.pushed)
      else Done(false, start, r.added, r.pushed)
  {
    hide Run;
    var r := Run(x, cs[k], i, added, f);
    MoreFuel(x, cs[k], i, added, f, f + f');
    assert cs[k..][1..] == cs[k + 1..];
    if r.success {
      MoreFuelItems(x, cs[k + 1..], start, r.index, r.added, f', f + f');
    }
  }

  lemma AllNullableNext(cs: seq<Id>, k: nat, nullable: set<Id>)
    requires k < |cs| && AllNullable(cs[..k], nullable) && cs[k] in nullable
    ensures AllNullable(cs[..k + 1], nullable)
  {
    assert cs[..k + 1] == cs[..k] + [cs[k]];
  }

  /** Each element that is reached without a token being read has a smaller rank. */
  ghost predicate RanksBelow(cs: seq<Id>, nullable: set<Id>, rank: seq<nat>, above: nat) {
    forall k :: 0 <= k < |cs| && AllNullable(cs[..k], nullable) ==> cs[k] < |rank| && rank[cs[k]] < above
  }

  lemma {:induction false} ItemsTerminate(
    x: Input, nullable: set<Id>, rank: seq<nat>, cs: seq<Id>, above: nat, k: nat, start: nat, i: nat, added: set<Id>)
    returns (fuel: nat)
    requires Progressive(x.g, nullable, rank) && RanksBelow(cs, nullable, rank, above)
    requires start <= i <= |x.tokens| && (forall j :: 0 <= j < |cs| ==> cs[j] < |x.g|) && k <= |cs|
    requires i > start || AllNullable(cs[..k], nullable)
    ensures var r := RunItems(x, cs[k..], start, i, added, fuel);
      r.Done? && (r.success && r.index == start ==> AllNullable(cs, nullable))
    decreases |x.tokens| - start, above, |cs| - k
  {
    assert i > start || (k < |cs| ==> rank[cs[k]] < above);
    assert Closed(x.g) && |rank| == |x.g|;
    hide Run, RunItems, Progressive, Closed, AllNullable, RanksBelow;
    fuel := 0;
    if k == |cs| {
      assert cs[..k] == cs;
      ItemsEnd(x, cs, k, start, i, added, fuel);
    } else if i == |x.tokens| {
      ItemsRunOut(x, nullable, rank, cs, k, start, added);
    } else {
      var f := Terminates(x, nullable, rank, cs[k], i, added);
      var f' := 0;
      var r := Run(x, cs[k], i, added, f);
      if r.success {
        if r.index == start {
          AllNullableNext(cs, k, nullable);
        }
        f' := ItemsTerminate(x, nullable, rank, cs, above, k + 1, start, r.index, r.added);
      }
      fuel := f + f';
      ItemsGoOn(x, cs, k, start, i, added, f, f');
    }
  }

  lemma {:induction false} ChoiceTerminates(x: Input, nullable: set<Id>, rank: seq<nat>, m: Id, k: nat, i: nat)
      returns (fuel: nat)
    requires Progressive(x.g, nullable, rank) && m < |x.g| && i < |x.tokens|
    requires x.g[m].Choice? && k <= |x.g[m].options|
    requires RefersBelow(x.g[m], |x.g|)
    ensures var r := RunChoice(x, x.g[m].options[k..], i, fuel);
      r.Done? && (r.success && r.index == i ==> m in nullable)
    decreases |x.tokens| - i, rank[m], |x.g[m].options| - k
  {
    assert ProgressiveAt(x.g, nullable, rank, m);
    var cs := x.g[m].options;
    fuel := 0;
    if k < |cs| {
      var f := Terminates(x, nullable, rank, cs[k], i, {});
      fuel := f;
      if !Run(x, cs[k], i, {}, f).success {
        var f' := ChoiceTerminates(x, nullable, rank, m, k + 1, i);
        fuel := f + f';
        MoreFuel(x, cs[k], i, {}, f, f + f');
        assert cs[k..][1..] == cs[k + 1..];
        MoreFuelChoice(x, cs[k + 1..], i, f', f + f');
      }
    }
  }

  lemma {:induction false} RepeatTerminates(
    x: Input, nullable: set<Id>, rank: seq<nat>, c: Id, i: nat, start: nat, above: nat, inner: set<Id>, added: set<Id>)
    returns (fuel: nat)
    requires Progressive(x.g, nullable, rank) && c < |x.g| && c !in nullable && start < i <= |x.tokens|
    ensures RunRepeat(x, c, i, inner, added, fuel).Done?
    ensures RunRepeat(x, c, i, inner, added, fuel).index > start
    decreases |x.tokens| - start, above, |x.tokens| - i
  {
    fuel := 0;
    if i < |x.tokens| {
      var f := Terminates(x, nullable, rank, c, i, inner);
      fuel := f + 1;
      var r := Run(x, c, i, inner, f);
      if r.success {
        var f' := RepeatTerminates(x, nullable, rank, c, r.index, start, above, r.added, added);
        fuel := f + f' + 1;
        MoreFuel(x, c, i, inner, f, f + f');
        MoreFuelRepeat(x, c, r.index, r.added, added, f', f + f');
      }
    }
  }
}
