/** When matching ends: on graphs whose choices have no alternative that can be empty before the last one, every run
    is finite exactly if there is no left recursion and no repeat of something that can be empty. */
module MatchEnds {
  import opened Acyclic
  import opened MatcherGraph
  import opened Derivations
  import opened MatchRun
  import opened MatchSoundness
  import opened MatchTermination

  ghost predicate Ends(x: Input, m: Id, i: nat, added: set<Id>) {
    CanStart(x, m, i) && exists fuel: nat :: Run(x, m, i, added, fuel).Done?
  }

  /** Every run on the graph is finite. */
  ghost predicate AlwaysEnds(g: Graph) {
    forall x: Input, m, i, added :: x.g == g && CanStart(x, m, i) ==> Ends(x, m, i, added)
  }

  lemma ProgressiveEnds(g: Graph, nullable: set<Id>, rank: seq<nat>)
    requires Progressive(g, nullable, rank)
    ensures AlwaysEnds(g)
  {
    forall x: Input, m, i, added | x.g == g && CanStart(x, m, i) ensures Ends(x, m, i, added) {
      var fuel := Terminates(x, nullable, rank, m, i, added);
    }
  }

  // ---------- left recursion ----------

  /** `m` can get to `c` before a token is read. */
  ghost predicate LeftRefers(g: Graph, nullable: set<Id>, m: Id, c: Id) {
    m < |g| && c < |g| &&
    match g[m]
    case Leaf(_) => false
    case List(cs) => exists k :: 0 <= k < |cs| && cs[k] == c && AllNullable(cs[..k], nullable)
    case Optional(d) => d == c
    case Choice(cs) => c in cs
    case Repeat(d) => d == c
  }

  ghost function LeftStep(g: Graph, nullable: set<Id>): (Id, Id) -> bool {
    (m: Id, c: Id) => LeftRefers(g, nullable, m, c)
  }

  ghost predicate LeftRecursive(g: Graph, nullable: set<Id>) {
    Cyclic(LeftStep(g, nullable))
  }

  /** Whatever can succeed without reading a token is in `nullable`, and nothing in it is repeated. */
  ghost predicate NullableAt(g: Graph, nullable: set<Id>, m: Id)
    requires m < |g|
  {
    match g[m]
    case Leaf(_) => true
    case List(cs) => AllNullable(cs, nullable) ==> m in nullable
    case Optional(c) => m in nullable
    case Choice(cs) => forall k :: 0 <= k < |cs| && cs[k] in nullable ==> m in nullable
    case Repeat(c) => c !in nullable
  }

  ghost predicate RepeatsProgress(g: Graph, nullable: set<Id>) {
    forall m :: 0 <= m < |g| ==> NullableAt(g, nullable, m)
  }

  ghost predicate RanksDown(g: Graph, nullable: set<Id>, rank: seq<nat>) {
    |rank| == |g| && forall m: Id, c: Id :: LeftRefers(g, nullable, m, c) ==> rank[c] < rank[m]
  }

  lemma ProgressiveMeans(g: Graph, nullable: set<Id>, rank: seq<nat>)
    requires Closed(g) && |rank| == |g|
    ensures Progressive(g, nullable, rank) <==>
      RanksDown(g, nullable, rank) && RepeatsProgress(g, nullable)
  {
    forall m | 0 <= m < |g|
      ensures RefersBelow(g[m], |g|)
      ensures ProgressiveAt(g, nullable, rank, m) <==>
        NullableAt(g, nullable, m) && forall c: Id :: LeftRefers(g, nullable, m, c) ==> rank[c] < rank[m]
    {
      assert RefersBelow(g[m], |g|);
      ProgressiveAtMeans(g, nullable, rank, m);
    }
    hide ProgressiveAt, NullableAt, LeftRefers;
  }

  lemma ProgressiveAtMeans(g: Graph, nullable: set<Id>, rank: seq<nat>, m: Id)
    requires m < |g| == |rank| && RefersBelow(g[m], |g|)
    ensures ProgressiveAt(g, nullable, rank, m) <==>
      NullableAt(g, nullable, m) && forall c: Id :: LeftRefers(g, nullable, m, c) ==> rank[c] < rank[m]
  {
    match g[m]
    case Leaf(_) =>
    case List(cs) =>
      forall k | 0 <= k < |cs| && AllNullable(cs[..k], nullable) ensures LeftRefers(g, nullable, m, cs[k]) {
      }
    case Optional(c) => assert LeftRefers(g, nullable, m, c);
    case Choice(cs) =>
      forall k | 0 <= k < |cs| ensures LeftRefers(g, nullable, m, cs[k]) {
      }
    case Repeat(c) => assert LeftRefers(g, nullable, m, c);
  }

  /** A rank goes down along every reference exactly when there is no left recursion. */
  lemma LeftRankExactly(g: Graph, nullable: set<Id>)
    ensures (exists rank :: RanksDown(g, nullable, rank)) <==> !LeftRecursive(g, nullable)
  {
    hide LeftRefers, Cyclic;
    var next := LeftStep(g, nullable);
    LeftWithin(g, nullable);
    RankExactly(next, Ids(|g|));
    if rank :| RanksDown(g, nullable, rank) {
      var f: Id -> nat := (m: Id) => if m < |rank| then rank[m] else 0;
      assert FallsAlong(next, f);
    }
    if !LeftRecursive(g, nullable) {
      var f: Id -> nat :| FallsAlong(next, f);
      var rank := seq(|g|, (m: nat) => f(m));
      assert RanksDown(g, nullable, rank) by {
        forall m: Id, c: Id | LeftRefers(g, nullable, m, c) ensures m < |g| && c < |g| && rank[c] < rank[m] {
          assert next(m, c);
        }
      }
    }
  }

  lemma LeftWithin(g: Graph, nullable: set<Id>)
    ensures IsWithin(LeftStep(g, nullable), Ids(|g|))
  {
    forall m: Id, c: Id | LeftStep(g, nullable)(m, c) ensures m in Ids(|g|) && c in Ids(|g|) {
      assert LeftRefers(g, nullable, m, c);
    }
  }

  lemma ProgressiveExactly(g: Graph, nullable: set<Id>)
    requires Closed(g)
    ensures (exists rank :: Progressive(g, nullable, rank)) <==>
      RepeatsProgress(g, nullable) && !LeftRecursive(g, nullable)
  {
    hide Progressive, RepeatsProgress, LeftRecursive;
    LeftRankExactly(g, nullable);
    if rank :| Progressive(g, nullable, rank) {
      ProgressiveLength(g, nullable, rank);
      ProgressiveMeans(g, nullable, rank);
    }
    if rank :| RanksDown(g, nullable, rank) {
      ProgressiveMeans(g, nullable, rank);
    }
  }

  lemma ProgressiveLength(g: Graph, nullable: set<Id>, rank: seq<nat>)
    requires Progressive(g, nullable, rank)
    ensures |rank| == |g|
  {
  }

  // ---------- the run that accepts nothing ----------

  /** One token, which no leaf accepts. */
  ghost function Idle(g: Graph): Input {
    Input(g, (_, _) => false, [""])
  }

  /** Such runs do not depend on which matchers were visited. */
  lemma {:induction false} SameAnswer(g: Graph, m: Id, a: set<Id>, b: set<Id>, fuel: nat)
    requires Closed(g) && m < |g|
    ensures IsSame(Run(Idle(g), m, 0, a, fuel), Run(Idle(g), m, 0, b, fuel))
    decreases fuel, 0, 0
  {
    if fuel > 0 {
      assert RefersBelow(g[m], |g|);
      match g[m]
      case Leaf(_) =>
      case List(cs) => SameItems(g, cs, {}, {}, fuel - 1);
      case Optional(c) => SameAnswer(g, c, {}, {}, fuel - 1);
      case Choice(cs) => SameChoice(g, cs, fuel - 1);
      case Repeat(c) =>
        SameAnswer(g, c, {}, {}, fuel - 1);
        var r := Run(Idle(g), c, 0, {}, fuel - 1);
        if r.Done? && r.success {
          SameRepeat(g, c, r.added, r.added, a, b, fuel - 1);
        }
    }
  }

  ghost predicate IsSame(r: Outcome, s: Outcome) {
    r.Done? == s.Done? && (r.Done? ==> r.success == s.success && r.index == s.index == 0)
  }

  lemma {:induction false} SameItems(g: Graph, cs: seq<Id>, a: set<Id>, b: set<Id>, fuel: nat)
    requires Closed(g) && forall k :: 0 <= k < |cs| ==> cs[k] < |g|
    ensures IsSame(RunItems(Idle(g), cs, 0, 0, a, fuel), RunItems(Idle(g), cs, 0, 0, b, fuel))
    decreases fuel, 1, |cs|
  {
    if cs != [] {
      SameAnswer(g, cs[0], a, b, fuel);
      var r, s := Run(Idle(g), cs[0], 0, a, fuel), Run(Idle(g), cs[0], 0, b, fuel);
      if r.Done? && r.success {
        SameItems(g, cs[1..], r.added, s.added, fuel);
      }
    }
  }

  lemma {:induction false} SameChoice(g: Graph, cs: seq<Id>, fuel: nat)
    requires Closed(g) && forall k :: 0 <= k < |cs| ==> cs[k] < |g|
    ensures var r := RunChoice(Idle(g), cs, 0, fuel); r.Done? ==> r.index == 0
    decreases fuel, 1, |cs|
  {
    if cs != [] {
      SameAnswer(g, cs[0], {}, {}, fuel);
      SameChoice(g, cs[1..], fuel);
    }
  }

  lemma {:induction false} SameRepeat(g: Graph, c: Id, inner: set<Id>, inner': set<Id>, a: set<Id>, b: set<Id>,
                                      fuel: nat)
    requires Closed(g) && c < |g|
    ensures IsSame(RunRepeat(Idle(g), c, 0, inner, a, fuel), RunRepeat(Idle(g), c, 0, inner', b, fuel))
    decreases fuel, 1, 0
  {
    if fuel > 0 {
      SameAnswer(g, c, inner, inner', fuel - 1);
      var r, s := Run(Idle(g), c, 0, inner, fuel - 1), Run(Idle(g), c, 0, inner', fuel - 1);
      if r.Done? && r.success {
        SameRepeat(g, c, r.added, s.added, a, b, fuel - 1);
      }
    }
  }

  /** The matcher succeeds without reading a token, although none would be accepted. */
  ghost predicate Idles(g: Graph, m: Id)
    requires Closed(g) && m < |g|
  {
    exists fuel: nat :: Run(Idle(g), m, 0, {}, fuel).Done? && Run(Idle(g), m, 0, {}, fuel).success
  }

  lemma IdlesIn(g: Graph, m: Id, added: set<Id>, fuel: nat)
    requires Closed(g) && m < |g| && Run(Idle(g), m, 0, added, fuel).Done?
    ensures Run(Idle(g), m, 0, {}, fuel).Done? && (Run(Idle(g), m, 0, added, fuel).success <==> Idles(g, m))
    ensures Run(Idle(g), m, 0, added, fuel).index == 0
  {
    SameAnswer(g, m, added, {}, fuel);
    if Idles(g, m) {
      var f: nat :| Run(Idle(g), m, 0, {}, f).Done? && Run(Idle(g), m, 0, {}, f).success;
      if f <= fuel {
        MoreFuel(Idle(g), m, 0, {}, f, fuel);
      } else {
        MoreFuel(Idle(g), m, 0, {}, fuel, f);
      }
    }
  }

  /** A list asks its elements up to the first that does not idle. */
  lemma {:induction false} ItemsAsk(g: Graph, cs: seq<Id>, added: set<Id>, fuel: nat, k: nat)
    requires Closed(g) && (forall j :: 0 <= j < |cs| ==> cs[j] < |g|) && k <= |cs|
    requires RunItems(Idle(g), cs, 0, 0, added, fuel).Done? && forall j :: 0 <= j < k ==> Idles(g, cs[j])
    ensures if k < |cs| then Run(Idle(g), cs[k], 0, {}, fuel).Done?
      else RunItems(Idle(g), cs, 0, 0, added, fuel).success
    decreases |cs|
  {
    hide Run, Idles;
    if cs != [] {
      IdlesIn(g, cs[0], added, fuel);
      if k > 0 {
        assert forall j :: 0 <= j < k - 1 ==> cs[1..][j] == cs[j + 1];
        ItemsAsk(g, cs[1..], Run(Idle(g), cs[0], 0, added, fuel).added, fuel, k - 1);
      }
    }
  }

  /** A choice asks its alternatives up to the first that idles. */
  lemma {:induction false} ChoiceAsks(g: Graph, cs: seq<Id>, fuel: nat, k: nat)
    requires Closed(g) && (forall j :: 0 <= j < |cs| ==> cs[j] < |g|) && k < |cs|
    requires RunChoice(Idle(g), cs, 0, fuel).Done? && forall j :: 0 <= j < k ==> !Idles(g, cs[j])
    ensures Run(Idle(g), cs[k], 0, {}, fuel).Done? && (Idles(g, cs[k]) ==> RunChoice(Idle(g), cs, 0, fuel).success)
    decreases |cs|
  {
    hide Run, Idles;
    IdlesIn(g, cs[0], {}, fuel);
    if k > 0 {
      assert forall j :: 0 <= j < k - 1 ==> cs[1..][j] == cs[j + 1];
      ChoiceAsks(g, cs[1..], fuel, k - 1);
    }
  }

  /** A repeat of a matcher that idles goes on for ever. */
  lemma {:induction false} RepeatGoesOn(g: Graph, c: Id, inner: set<Id>, added: set<Id>, fuel: nat)
    requires Closed(g) && c < |g| && Idles(g, c)
    ensures RunRepeat(Idle(g), c, 0, inner, added, fuel).Timeout?
    decreases fuel
  {
    hide Run, Idles;
    if fuel > 0 {
      var r := Run(Idle(g), c, 0, inner, fuel - 1);
      if r.Done? {
        IdlesIn(g, c, inner, fuel - 1);
        RepeatGoesOn(g, c, r.added, added, fuel - 1);
      }
    }
  }

  // ---------- exactly ----------

  /** The matcher can derive nothing at all. */
  ghost predicate CanBeEmpty(g: Graph, m: Id) {
    exists x: Input, t :: x.g == g && Derives(x, m, t) && Yield(t) == []
  }

  /** In a choice, only the last alternative can be empty. */
  ghost predicate EmptyComesLast(g: Graph) {
    forall m, k :: 0 <= m < |g| && g[m].Choice? && 0 <= k < |g[m].options| - 1 ==> !CanBeEmpty(g, g[m].options[k])
  }

  lemma IdlesEmpty(g: Graph, m: Id)
    requires Closed(g) && m < |g| && Idles(g, m)
    ensures CanBeEmpty(g, m)
  {
    var fuel: nat :| Run(Idle(g), m, 0, {}, fuel).Done? && Run(Idle(g), m, 0, {}, fuel).success;
    IdlesIn(g, m, {}, fuel);
    var t := MatchDerives(Idle(g), m, 0, {}, fuel);
    assert Derives(Idle(g), m, t);
  }

  /** The depth of a run. */
  ghost predicate IsDepth(g: Graph, m: Id, d: nat)
    requires Closed(g) && m < |g|
  {
    Run(Idle(g), m, 0, {}, d).Done? && forall f: nat :: Run(Idle(g), m, 0, {}, f).Done? ==> d <= f
  }

  lemma {:induction false} Depth(g: Graph, m: Id, f: nat) returns (d: nat)
    requires Closed(g) && m < |g| && Run(Idle(g), m, 0, {}, f).Done?
    ensures IsDepth(g, m, d)
    decreases f
  {
    if f > 0 && Run(Idle(g), m, 0, {}, f - 1).Done? {
      d := Depth(g, m, f - 1);
    } else {
      d := f;
      forall f': nat | Run(Idle(g), m, 0, {}, f').Done? ensures d <= f' {
        if f' < f {
          MoreFuel(Idle(g), m, 0, {}, f', f - 1);
        }
      }
    }
  }

  lemma {:induction false} Depths(g: Graph, n: nat) returns (rank: seq<nat>)
    requires Closed(g) && AlwaysEnds(g) && n <= |g|
    ensures |rank| == n && forall m :: 0 <= m < n ==> IsDepth(g, m, rank[m])
  {
    if n == 0 {
      rank := [];
    } else {
      rank := Depths(g, n - 1);
      assert CanStart(Idle(g), n - 1, 0);
      assert Ends(Idle(g), n - 1, 0, {});
      var f: nat :| Run(Idle(g), n - 1, 0, {}, f).Done?;
      var d := Depth(g, n - 1, f);
      rank := rank + [d];
    }
  }

  lemma DepthsProgress(g: Graph, nullable: set<Id>, rank: seq<nat>, m: Id)
    requires Closed(g) && EmptyComesLast(g) && |rank| == |g| && m < |g| && RefersBelow(g[m], |g|)
    requires forall c :: 0 <= c < |g| ==> IsDepth(g, c, rank[c]) && (c in nullable <==> Idles(g, c))
    ensures ProgressiveAt(g, nullable, rank, m)
  {
    hide EmptyComesLast, Idles, RunItems, RunChoice, RunRepeat;
    var d := rank[m];
    var r := Run(Idle(g), m, 0, {}, d);
    IdlesIn(g, m, {}, d);
    match g[m]
    case Leaf(_) =>
    case List(cs) =>
      forall k | 0 <= k < |cs| && AllNullable(cs[..k], nullable) ensures rank[cs[k]] < d {
        assert forall j :: 0 <= j < k ==> cs[..k][j] == cs[j];
        ItemsAsk(g, cs, {}, d - 1, k);
      }
      if AllNullable(cs, nullable) {
        ItemsAsk(g, cs, {}, d - 1, |cs|);
      }
    case Optional(c) =>
    case Choice(cs) =>
      forall k | 0 <= k < |cs| ensures rank[cs[k]] < rank[m] && (cs[k] in nullable ==> m in nullable) {
        EarlierDoNotIdle(g, m, k);
        ChoiceAsks(g, cs, d - 1, k);
      }
    case Repeat(c) =>
      IdlesIn(g, c, {}, d - 1);
      if Idles(g, c) {
        RepeatGoesOn(g, c, Run(Idle(g), c, 0, {}, d - 1).added, {}, d - 1);
      }
  }

  lemma EarlierDoNotIdle(g: Graph, m: Id, k: nat)
    requires Closed(g) && EmptyComesLast(g) && m < |g| && g[m].Choice? && k < |g[m].options|
    requires RefersBelow(g[m], |g|)
    ensures forall j :: 0 <= j < k ==> !Idles(g, g[m].options[j])
  {
    forall j | 0 <= j < k ensures !Idles(g, g[m].options[j]) {
      if Idles(g, g[m].options[j]) {
        IdlesEmpty(g, g[m].options[j]);
      }
    }
  }

  lemma EndsProgress(g: Graph)
    requires Closed(g) && EmptyComesLast(g) && AlwaysEnds(g)
    ensures exists nullable, rank :: Progressive(g, nullable, rank)
  {
    hide AlwaysEnds, EmptyComesLast, ProgressiveAt;
    var rank := Depths(g, |g|);
    var nullable := set m | m in Ids(|g|) && Idles(g, m);
    forall m | 0 <= m < |g| ensures RefersBelow(g[m], |g|) && ProgressiveAt(g, nullable, rank, m) {
      DepthsProgress(g, nullable, rank, m);
    }
    assert Progressive(g, nullable, rank);
  }

  /** Where only last alternatives can be empty, every run is finite exactly if no matcher can get to itself before a
      token is read, and nothing that can succeed without one is repeated. */
  lemma EndsExactly(g: Graph)
    requires Closed(g) && EmptyComesLast(g)
    ensures AlwaysEnds(g) <==> exists nullable :: RepeatsProgress(g, nullable) && !LeftRecursive(g, nullable)
  {
    hide AlwaysEnds, EmptyComesLast, Progressive, RepeatsProgress, LeftRecursive;
    if nullable :| RepeatsProgress(g, nullable) && !LeftRecursive(g, nullable) {
      ProgressiveExactly(g, nullable);
      var rank :| Progressive(g, nullable, rank);
      ProgressiveEnds(g, nullable, rank);
    }
    if AlwaysEnds(g) {
      EndsProgress(g);
      var nullable, rank :| Progressive(g, nullable, rank);
      ProgressiveExactly(g, nullable);
    }
  }

  /** 'a'? or else the same again. */
  const SHADOWED: Graph := [List([1]), Choice([2, 0]), Optional(3), Leaf(Keyword("a"))]

  /** An alternative that can be empty may keep a later one from being asked: then matching ends in spite of left
      recursion. */
  lemma ShadowedEnds(accepts: (LeafKind, string) -> bool, tokens: seq<string>)
    requires tokens != []
    ensures Ends(Input(SHADOWED, accepts, tokens), 0, 0, {})
    ensures forall nullable :: LeftRecursive(SHADOWED, nullable)
  {
    var x := Input(SHADOWED, accepts, tokens);
    assert Run(x, 3, 0, {}, 1).Done?;
    assert Run(x, 2, 0, {}, 2).Done? && Run(x, 2, 0, {}, 2).success;
    assert RunChoice(x, [2, 0], 0, 2).Done?;
    assert Run(x, 1, 0, {}, 3).Done? && Run(x, 1, 0, {}, 3).success;
    assert RunItems(x, [1], 0, 0, {}, 3).Done?;
    assert Run(x, 0, 0, {}, 4).Done?;
    forall nullable ensures LeftRecursive(SHADOWED, nullable) {
      ShadowedRecurses(nullable);
    }
  }

  lemma ShadowedRecurses(nullable: set<Id>)
    ensures LeftRecursive(SHADOWED, nullable)
  {
    var cs := SHADOWED[0].children;
    assert cs[0] == 1 && AllNullable(cs[..0], nullable) && LeftRefers(SHADOWED, nullable, 0, 1);
    var options := SHADOWED[1].options;
    assert options[1] == 0 && LeftRefers(SHADOWED, nullable, 1, 0);
    var next, path: seq<Id> := LeftStep(SHADOWED, nullable), [0, 1, 0];
    assert next(path[0], path[1]) && next(path[1], path[2]);
    assert IsPath(next, path) && Reaches(next, 0, 0);
  }
}
