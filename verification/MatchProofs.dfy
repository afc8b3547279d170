/** When a match succeeds or is refused, by proofs: a tree holds an outcome for every matcher that has to be asked.
    A run comes to an outcome exactly when there is a proof of it. */
module MatchProofs {
  import opened MatcherGraph
  import opened MatchRun
  import opened MatchTermination

  /** Whether the match succeeds, where it leaves the position, which matchers have been visited, and the proposals. */
  datatype Claim = Claim(ok: bool, index: nat, added: set<Id>, pushed: seq<LeafKind>)

  /** A claim, with proofs for the matchers asked, in the order in which they are asked. */
  datatype Proof = Proof(claim: Claim, steps: seq<Proof>)

  /** Where the step at `k` begins, if each begins where the one before has left the position. */
  function From(i: nat, steps: seq<Proof>, k: nat): nat
    requires k <= |steps|
  {
    if k == 0 then i else steps[k - 1].claim.index
  }

  function Seen(added: set<Id>, steps: seq<Proof>, k: nat): set<Id>
    requires k <= |steps|
  {
    if k == 0 then added else steps[k - 1].claim.added
  }

  /** What all steps propose. */
  function PushedBy(steps: seq<Proof>): seq<LeafKind> {
    if steps == [] then [] else steps[0].claim.pushed + PushedBy(steps[1..])
  }

  /** The matchers `cs` are asked one behind the other while there are tokens left; all but the last one asked match. */
  ghost predicate InTurn(x: Input, cs: seq<Id>, i: nat, added: set<Id>, steps: seq<Proof>)
    decreases steps
  {
    && |steps| <= |cs|
    && forall k :: 0 <= k < |steps| ==>
      && From(i, steps, k) < |x.tokens| && (k < |steps| - 1 ==> steps[k].claim.ok)
      && Proves(x, cs[k], From(i, steps, k), Seen(added, steps, k), steps[k])
  }

  ghost predicate AllMatch(steps: seq<Proof>) {
    steps == [] || steps[|steps| - 1].claim.ok
  }

  /** How a list that began at `start` ends: all of its elements have matched; or the last one asked is refused; or
      the tokens have run out before its elements, and then the rest is proposed, and it depends on whether it must
      be matched. */
  ghost predicate ListEnds(x: Input, cs: seq<Id>, start: nat, i: nat, added: set<Id>, steps: seq<Proof>, ok: bool,
                           index: nat, pushed: seq<LeafKind>)
    requires x.Valid() && (forall k :: 0 <= k < |cs| ==> cs[k] < |x.g|) && |steps| <= |cs|
  {
    var n := |steps|;
    || (n == |cs| && AllMatch(steps) && ok && index == From(i, steps, n) && pushed == PushedBy(steps))
    || (!AllMatch(steps) && !ok && index == start && pushed == PushedBy(steps))
    || (n < |cs| && AllMatch(steps) && From(i, steps, n) == index == |x.tokens|
        && var p := SuggestInOrder(x.g, cs[n..], Seen(added, steps, n));
          ok == !p.mandatory && pushed == PushedBy(steps) + p.pushed)
  }

  /** How a repeat ends: its element is refused at once; or the tokens have run out, and it is proposed; or the element
      is refused after it has matched, and the position is where it was before. */
  ghost predicate RepeatEnds(x: Input, c: Id, i: nat, added: set<Id>, steps: seq<Proof>, claim: Claim)
    requires x.Valid() && c < |x.g|
  {
    var n := |steps|;
    && n > 0
    && if !steps[n - 1].claim.ok then claim == if n == 1 then Claim(false, i, added, PushedBy(steps))
                                               else Claim(true, From(i, steps, n - 1), added, PushedBy(steps))
       else
         && steps[n - 1].claim.index == |x.tokens|
         && var p := Suggest(x.g, c, added); claim == Claim(true, |x.tokens|, p.added, PushedBy(steps) + p.pushed)
  }

  /** The first that matches of the alternatives decides, and all are refused before it. */
  ghost predicate ChoiceEnds(cs: seq<Id>, i: nat, steps: seq<Proof>, ok: bool, index: nat) {
    var n := |steps|;
    && n <= |cs| && (forall k :: 0 <= k < n - 1 ==> !steps[k].claim.ok)
    && if n > 0 && steps[n - 1].claim.ok then ok && index == steps[n - 1].claim.index
       else n == |cs| && !ok && index == i
  }

  ghost predicate Proves(x: Input, m: Id, i: nat, added: set<Id>, p: Proof)
    decreases p
  {
    CanStart(x, m, i) && RefersBelow(x.g[m], |x.g|) &&
    match x.g[m]
    case Leaf(kind) =>
      && p.steps == []
      && p.claim ==
         if x.accepts(kind, x.tokens[i]) then Claim(true, i + 1, added, []) else Claim(false, i, added, [])
    case List(cs) =>
      && InTurn(x, cs, i, {}, p.steps) && ListEnds(x, cs, i, i, {}, p.steps, p.claim.ok, p.claim.index, p.claim.pushed)
      && p.claim.added == added
    case Optional(c) =>
      && |p.steps| == 1 && Proves(x, c, i, {}, p.steps[0])
      && var q := p.steps[0].claim; p.claim == Claim(true, if q.ok then q.index else i, added, q.pushed)
    case Choice(cs) =>
      && ChoiceEnds(cs, i, p.steps, p.claim.ok, p.claim.index) && p.claim.added == added
      && p.claim.pushed == PushedBy(p.steps)
      && forall k :: 0 <= k < |p.steps| ==> Proves(x, cs[k], i, {}, p.steps[k])
    case Repeat(c) =>
      && InTurn(x, Same(c, |p.steps|), i, {}, p.steps)
      && RepeatEnds(x, c, i, added, p.steps, p.claim)
  }

  // ---------- every outcome has a proof ----------

  ghost predicate IsClaim(r: Outcome, c: Claim) {
    r.Done? && r.success == c.ok && r.index == c.index && r.added == c.added && r.pushed == c.pushed
  }

  lemma Shifted(i: nat, added: set<Id>, p: Proof, steps: seq<Proof>)
    ensures From(i, [p] + steps, 0) == i && Seen(added, [p] + steps, 0) == added
    ensures forall k :: 0 <= k <= |steps| ==> From(i, [p] + steps, k + 1) == From(p.claim.index, steps, k)
    ensures forall k :: 0 <= k <= |steps| ==> Seen(added, [p] + steps, k + 1) == Seen(p.claim.added, steps, k)
  {
  }

  lemma PushedFirst(p: Proof, steps: seq<Proof>)
    ensures PushedBy([p] + steps) == p.claim.pushed + PushedBy(steps) && PushedBy([p]) == p.claim.pushed
    ensures forall more :: PushedBy([p] + steps) + more == p.claim.pushed + (PushedBy(steps) + more)
  {
    assert ([p] + steps)[1..] == steps && [p][1..] == [] && p.claim.pushed + [] == p.claim.pushed;
  }

  lemma NothingPushed(pushed: seq<LeafKind>)
    ensures PushedBy([]) + pushed == pushed
  {
  }

  lemma SameBehind(a: seq<LeafKind>, b: seq<LeafKind>, c: seq<LeafKind>)
    ensures a + b == a + c <==> b == c
  {
    assert (a + b)[|a|..] == b && (a + c)[|a|..] == c;
  }

  lemma FirstInTurn(x: Input, cs: seq<Id>, i: nat, added: set<Id>, p: Proof, steps: seq<Proof>)
    requires cs != [] && i < |x.tokens| && Proves(x, cs[0], i, added, p) && (steps != [] ==> p.claim.ok)
    requires InTurn(x, cs[1..], p.claim.index, p.claim.added, steps)
    ensures InTurn(x, cs, i, added, [p] + steps)
    ensures forall k :: 0 <= k <= |steps| ==> From(i, [p] + steps, k + 1) == From(p.claim.index, steps, k)
    ensures forall k :: 0 <= k <= |steps| ==> Seen(added, [p] + steps, k + 1) == Seen(p.claim.added, steps, k)
  {
    Shifted(i, added, p, steps);
    hide Proves, From, Seen;
    var all := [p] + steps;
    forall k | 0 <= k < |all|
      ensures From(i, all, k) < |x.tokens| && (k < |all| - 1 ==> all[k].claim.ok)
      ensures Proves(x, cs[k], From(i, all, k), Seen(added, all, k), all[k])
    {
      if k > 0 {
        assert all[k] == steps[k - 1] && cs[k] == cs[1..][k - 1];
        assert From(i, all, k) == From(p.claim.index, steps, k - 1);
        assert Seen(added, all, k) == Seen(p.claim.added, steps, k - 1);
      }
    }
  }

  lemma {:induction false} RunProves(x: Input, m: Id, i: nat, added: set<Id>, fuel: nat) returns (p: Proof)
    requires CanStart(x, m, i) && Run(x, m, i, added, fuel).Done?
    ensures Proves(x, m, i, added, p) && IsClaim(Run(x, m, i, added, fuel), p.claim)
    decreases fuel, 0, 1
  {
    hide InTurn, ListEnds, ChoiceEnds, RepeatEnds, RunItems, RunChoice, RunRepeat;
    assert RefersBelow(x.g[m], |x.g|);
    var r := Run(x, m, i, added, fuel);
    var claim := Claim(r.success, r.index, r.added, r.pushed);
    match x.g[m]
    case Leaf(_) =>
      p := Proof(claim, []);
    case List(cs) =>
      var steps := ItemsProve(x, cs, i, i, {}, fuel - 1);
      p := Proof(claim, steps);
    case Optional(c) =>
      var q := RunProves(x, c, i, {}, fuel - 1);
      p := Proof(claim, [q]);
    case Choice(cs) =>
      var steps := ChoiceProves(x, cs, i, fuel - 1);
      p := Proof(claim, steps);
    case Repeat(c) =>
      p := RepeatProves(x, m, i, added, fuel);
  }

  lemma {:induction false} ItemsProve(x: Input, cs: seq<Id>, start: nat, i: nat, added: set<Id>, fuel: nat)
    returns (steps: seq<Proof>)
    requires x.Valid() && start <= i <= |x.tokens| && (forall k :: 0 <= k < |cs| ==> cs[k] < |x.g|)
    requires RunItems(x, cs, start, i, added, fuel).Done?
    ensures InTurn(x, cs, i, added, steps)
    ensures var r := RunItems(x, cs, start, i, added, fuel);
      |steps| <= |cs| && ListEnds(x, cs, start, i, added, steps, r.success, r.index, r.pushed)
    decreases fuel, 1, |cs|
  {
    hide Run, Proves, SuggestInOrder;
    steps := [];
    if cs != [] && i < |x.tokens| {
      var p := RunProves(x, cs[0], i, added, fuel);
      var r := Run(x, cs[0], i, added, fuel);
      if r.success {
        var rest := ItemsProve(x, cs[1..], start, r.index, r.added, fuel);
        FirstInTurn(x, cs, i, added, p, rest);
        steps := [p] + rest;
        LaterEnds(x, cs, start, i, added, p, rest, RunItems(x, cs[1..], start, r.index, r.added, fuel));
      } else {
        steps := [p];
        PushedFirst(p, []);
      }
    } else {
      assert cs[0..] == cs;
      if cs != [] {
        NothingPushed(SuggestInOrder(x.g, cs, added).pushed);
      }
    }
  }

  /** A list ends as it does from its second element on. */
  lemma LaterEnds(x: Input, cs: seq<Id>, start: nat, i: nat, added: set<Id>, p: Proof, steps: seq<Proof>, r: Outcome)
    requires x.Valid() && (forall k :: 0 <= k < |cs| ==> cs[k] < |x.g|) && r.Done?
    requires cs != [] && |steps| <= |cs| - 1 && p.claim.ok
    ensures ListEnds(x, cs, start, i, added, [p] + steps, r.success, r.index, p.claim.pushed + r.pushed) ==
            ListEnds(x, cs[1..], start, p.claim.index, p.claim.added, steps, r.success, r.index, r.pushed)
  {
    PushedFirst(p, steps);
    hide SuggestInOrder, PushedBy;
    var all := [p] + steps;
    SameBehind(p.claim.pushed, r.pushed, PushedBy(steps));
    if |steps| < |cs| - 1 {
      var rest := SuggestInOrder(x.g, cs[1..][|steps|..], Seen(p.claim.added, steps, |steps|));
      SameBehind(p.claim.pushed, r.pushed, PushedBy(steps) + rest.pushed);
    }
    assert cs[|all|..] == cs[1..][|steps|..];
    assert steps != [] ==> all[|all| - 1] == steps[|steps| - 1];
  }

  /** A refused alternative before the others. */
  lemma ChoiceLater(x: Input, cs: seq<Id>, i: nat, p: Proof, steps: seq<Proof>, ok: bool, index: nat)
    requires cs != [] && Proves(x, cs[0], i, {}, p) && !p.claim.ok && ChoiceEnds(cs[1..], i, steps, ok, index)
    requires |steps| <= |cs| - 1 && forall k :: 0 <= k < |steps| ==> Proves(x, cs[1..][k], i, {}, steps[k])
    ensures ChoiceEnds(cs, i, [p] + steps, ok, index)
    ensures forall k :: 0 <= k < |[p] + steps| ==> Proves(x, cs[k], i, {}, ([p] + steps)[k])
  {
    hide Proves;
    var all := [p] + steps;
    forall k | 0 <= k < |all| ensures Proves(x, cs[k], i, {}, all[k]) {
      assert k > 0 ==> all[k] == steps[k - 1] && cs[k] == cs[1..][k - 1];
    }
    assert forall k :: 0 < k < |all| ==> all[k] == steps[k - 1];
  }

  lemma {:induction false} ChoiceProves(x: Input, cs: seq<Id>, i: nat, fuel: nat) returns (steps: seq<Proof>)
    requires x.Valid() && i < |x.tokens| && (forall k :: 0 <= k < |cs| ==> cs[k] < |x.g|)
    requires RunChoice(x, cs, i, fuel).Done?
    ensures var r := RunChoice(x, cs, i, fuel);
      ChoiceEnds(cs, i, steps, r.success, r.index) && r.pushed == PushedBy(steps)
    ensures |steps| <= |cs| && forall k :: 0 <= k < |steps| ==> Proves(x, cs[k], i, {}, steps[k])
    decreases fuel, 1, |cs|
  {
    hide Run, Proves;
    steps := [];
    if cs != [] {
      var p := RunProves(x, cs[0], i, {}, fuel);
      hide InRange;
      steps := [p];
      if !p.claim.ok {
        var rest := ChoiceProves(x, cs[1..], i, fuel);
        steps := [p] + rest;
        var r := RunChoice(x, cs[1..], i, fuel);
        ChoiceLater(x, cs, i, p, rest, r.success, r.index);
        PushedFirst(p, rest);
      }
    }
  }

  function Same(c: Id, n: nat): (cs: seq<Id>)
    ensures |cs| == n && forall k :: 0 <= k < n ==> cs[k] == c
  {
    seq(n, _ => c)
  }

  /** How a repeat goes on after its element has matched up to `i`. */
  ghost predicate AgainEnds(x: Input, c: Id, i: nat, inner: set<Id>, added: set<Id>, steps: seq<Proof>, r: Outcome)
    requires x.Valid() && c < |x.g|
  {
    var n := |steps|;
    && r.Done? && r.success
    && if n > 0 && !steps[n - 1].claim.ok then
         r.index == From(i, steps, n - 1) && r.added == added && r.pushed == PushedBy(steps)
       else
         && From(i, steps, n) == r.index == |x.tokens|
         && var p := Suggest(x.g, c, added); r.added == p.added && r.pushed == PushedBy(steps) + p.pushed
  }

  lemma {:induction false} AgainProves(x: Input, c: Id, i: nat, inner: set<Id>, added: set<Id>, fuel: nat)
    returns (steps: seq<Proof>)
    requires x.Valid() && c < |x.g| && i <= |x.tokens| && RunRepeat(x, c, i, inner, added, fuel).Done?
    ensures InTurn(x, Same(c, |steps|), i, inner, steps)
    ensures AgainEnds(x, c, i, inner, added, steps, RunRepeat(x, c, i, inner, added, fuel))
    decreases fuel, 1, 0
  {
    hide Run, Proves, Suggest;
    steps := [];
    NothingPushed(Suggest(x.g, c, added).pushed);
    if i < |x.tokens| {
      var p := RunProves(x, c, i, inner, fuel - 1);
      PushedFirst(p, []);
      var r := Run(x, c, i, inner, fuel - 1);
      steps := [p];
      if r.success {
        var rest := AgainProves(x, c, r.index, r.added, added, fuel - 1);
        steps := [p] + rest;
        assert Same(c, |steps|)[1..] == Same(c, |rest|);
        FirstInTurn(x, Same(c, |steps|), i, inner, p, rest);
        PushedFirst(p, rest);
        assert rest != [] ==> steps[|steps| - 1] == rest[|rest| - 1];
      }
    }
  }

  lemma {:induction false} RepeatProves(x: Input, m: Id, i: nat, added: set<Id>, fuel: nat) returns (p: Proof)
    requires CanStart(x, m, i) && RefersBelow(x.g[m], |x.g|) && x.g[m].Repeat? && Run(x, m, i, added, fuel).Done?
    ensures Proves(x, m, i, added, p) && IsClaim(Run(x, m, i, added, fuel), p.claim)
    decreases fuel, 0, 0
  {
    var c := x.g[m].element;
    var q := RunProves(x, c, i, {}, fuel - 1);
    var first := Run(x, c, i, {}, fuel - 1);
    var r := Run(x, m, i, added, fuel);
    var steps := [q];
    PushedFirst(q, []);
    if first.success {
      var rest := AgainProves(x, c, first.index, first.added, added, fuel - 1);
      steps := [q] + rest;
      hide Proves, Suggest;
      assert Same(c, |steps|)[1..] == Same(c, |rest|);
      FirstInTurn(x, Same(c, |steps|), i, {}, q, rest);
      PushedFirst(q, rest);
      assert rest != [] ==> steps[|steps| - 1] == rest[|rest| - 1];
    }
    p := Proof(Claim(r.success, r.index, r.added, r.pushed), steps);
  }

  // ---------- every proof is run ----------

  lemma RestInTurn(x: Input, cs: seq<Id>, i: nat, added: set<Id>, steps: seq<Proof>)
    requires InTurn(x, cs, i, added, steps) && steps != []
    ensures cs != [] && i < |x.tokens| && Proves(x, cs[0], i, added, steps[0])
    ensures |steps| > 1 ==> steps[0].claim.ok
    ensures InTurn(x, cs[1..], steps[0].claim.index, steps[0].claim.added, steps[1..])
  {
    hide Proves;
    var p, rest := steps[0], steps[1..];
    assert From(i, steps, 0) == i && Seen(added, steps, 0) == added;
    forall k | 0 <= k < |rest|
      ensures From(p.claim.index, rest, k) < |x.tokens| && (k < |rest| - 1 ==> rest[k].claim.ok)
      ensures Proves(x, cs[1..][k], From(p.claim.index, rest, k), Seen(p.claim.added, rest, k), rest[k])
    {
      assert From(i, steps, k + 1) == From(p.claim.index, rest, k);
      assert Seen(added, steps, k + 1) == Seen(p.claim.added, rest, k);
    }
  }

  lemma {:induction false} ProofRuns(x: Input, m: Id, i: nat, added: set<Id>, p: Proof) returns (fuel: nat)
    requires Proves(x, m, i, added, p)
    ensures CanStart(x, m, i) && IsClaim(Run(x, m, i, added, fuel), p.claim)
    decreases p, 1
  {
    hide ListEnds, RepeatEnds, RunItems, RunChoice, RunRepeat;
    match x.g[m]
    case Leaf(_) =>
      fuel := 1;
    case List(cs) =>
      var f := ItemsRun(x, cs, i, i, {}, p.steps, p.claim.ok, p.claim.index, p.claim.pushed);
      fuel := f + 1;
    case Optional(c) =>
      var f := ProofRuns(x, c, i, {}, p.steps[0]);
      fuel := f + 1;
    case Choice(cs) =>
      var f := ChoiceRuns(x, cs, i, p.steps, p.claim.ok, p.claim.index);
      fuel := f + 1;
    case Repeat(c) =>
      fuel := RepeatRuns(x, m, i, added, p);
  }

  lemma {:induction false} ItemsRun(x: Input, cs: seq<Id>, start: nat, i: nat, added: set<Id>, steps: seq<Proof>,
                                    ok: bool, index: nat, pushed: seq<LeafKind>) returns (fuel: nat)
    requires x.Valid() && start <= i <= |x.tokens| && (forall k :: 0 <= k < |cs| ==> cs[k] < |x.g|)
    requires InTurn(x, cs, i, added, steps)
    requires |steps| <= |cs| && ListEnds(x, cs, start, i, added, steps, ok, index, pushed)
    ensures var r := RunItems(x, cs, start, i, added, fuel);
      r.Done? && r.success == ok && r.index == index && r.pushed == pushed
    decreases steps
  {
    hide Run, Proves, SuggestInOrder, InTurn;
    fuel := 0;
    if steps != [] {
      RestInTurn(x, cs, i, added, steps);
      var p := steps[0];
      assert p in steps;
      var f := ProofRuns(x, cs[0], i, added, p);
      fuel := f;
      if p.claim.ok {
        var r := Run(x, cs[0], i, added, f);
        var later := BehindFirst(x, cs, start, i, added, steps, ok, index, pushed);
        var f' := ItemsRun(x, cs[1..], start, r.index, r.added, steps[1..], ok, index, later);
        fuel := f + f';
        MoreFuel(x, cs[0], i, added, f, f + f');
        MoreFuelItems(x, cs[1..], start, r.index, r.added, f', f + f');
      } else {
        assert steps == [p];
        PushedFirst(p, []);
      }
    } else {
      assert cs[0..] == cs;
      if cs != [] && i == |x.tokens| {
        NothingPushed(SuggestInOrder(x.g, cs, added).pushed);
      }
    }
  }

  /** What is proposed behind the first step. */
  lemma BehindFirst(x: Input, cs: seq<Id>, start: nat, i: nat, added: set<Id>, steps: seq<Proof>, ok: bool, index: nat,
                    pushed: seq<LeafKind>) returns (later: seq<LeafKind>)
    requires x.Valid() && (forall k :: 0 <= k < |cs| ==> cs[k] < |x.g|) && cs != []
    requires steps != [] && steps[0].claim.ok
    requires |steps| <= |cs| && ListEnds(x, cs, start, i, added, steps, ok, index, pushed)
    ensures pushed == steps[0].claim.pushed + later
    ensures ListEnds(x, cs[1..], start, steps[0].claim.index, steps[0].claim.added, steps[1..], ok, index, later)
  {
    hide SuggestInOrder;
    var p, rest := steps[0], steps[1..];
    assert steps == [p] + rest;
    PushedFirst(p, rest);
    later := pushed[|p.claim.pushed|..];
    LaterEnds(x, cs, start, i, added, p, rest, Done(ok, index, {}, later));
  }

  lemma {:induction false} ChoiceRuns(x: Input, cs: seq<Id>, i: nat, steps: seq<Proof>, ok: bool, index: nat)
    returns (fuel: nat)
    requires x.Valid() && i < |x.tokens| && (forall k :: 0 <= k < |cs| ==> cs[k] < |x.g|)
    requires ChoiceEnds(cs, i, steps, ok, index) && |steps| <= |cs|
    requires forall k :: 0 <= k < |steps| ==> Proves(x, cs[k], i, {}, steps[k])
    ensures var r := RunChoice(x, cs, i, fuel);
      r.Done? && r.success == ok && r.index == index && r.pushed == PushedBy(steps)
    decreases steps
  {
    hide Run, Proves;
    fuel := 0;
    if steps != [] {
      var p := steps[0];
      assert p in steps;
      PushedFirst(p, steps[1..]);
      assert steps == [p] + steps[1..];
      var f := ProofRuns(x, cs[0], i, {}, p);
      fuel := f;
      if !p.claim.ok {
        forall k | 0 <= k < |steps| - 1 ensures Proves(x, cs[1..][k], i, {}, steps[1..][k]) {
          assert Proves(x, cs[k + 1], i, {}, steps[k + 1]);
        }
        var f' := ChoiceRuns(x, cs[1..], i, steps[1..], ok, index);
        fuel := f + f';
        MoreFuel(x, cs[0], i, {}, f, f + f');
        MoreFuelChoice(x, cs[1..], i, f', f + f');
      }
    }
  }

  lemma {:induction false} AgainRuns(x: Input, c: Id, i: nat, inner: set<Id>, added: set<Id>, steps: seq<Proof>,
                                     r: Outcome) returns (fuel: nat)
    requires x.Valid() && c < |x.g| && i <= |x.tokens| && InTurn(x, Same(c, |steps|), i, inner, steps)
    requires AgainEnds(x, c, i, inner, added, steps, r)
    ensures var s := RunRepeat(x, c, i, inner, added, fuel);
      s == r
    decreases steps
  {
    hide Run, Proves, Suggest;
    fuel := 0;
    NothingPushed(Suggest(x.g, c, added).pushed);
    if steps != [] {
      RestInTurn(x, Same(c, |steps|), i, inner, steps);
      assert Same(c, |steps|)[1..] == Same(c, |steps| - 1);
      var p := steps[0];
      assert p in steps;
      var f := ProofRuns(x, c, i, inner, p);
      fuel := f + 1;
      if p.claim.ok {
        var q := Run(x, c, i, inner, f);
        var later := AgainLater(x, c, i, inner, added, steps, r);
        var f' := AgainRuns(x, c, q.index, q.added, added, steps[1..], later);
        fuel := f + f' + 1;
        MoreFuel(x, c, i, inner, f, f + f');
        MoreFuelRepeat(x, c, q.index, q.added, added, f', f + f');
      } else {
        assert steps == [p];
        PushedFirst(p, []);
      }
    }
  }

  lemma AgainLater(x: Input, c: Id, i: nat, inner: set<Id>, added: set<Id>, steps: seq<Proof>, r: Outcome)
    returns (later: Outcome)
    requires x.Valid() && c < |x.g| && steps != [] && steps[0].claim.ok && AgainEnds(x, c, i, inner, added, steps, r)
    ensures AgainEnds(x, c, steps[0].claim.index, steps[0].claim.added, added, steps[1..], later)
    ensures r == later.After(steps[0].claim.pushed)
  {
    hide Suggest;
    var p := steps[0];
    assert steps == [p] + steps[1..];
    PushedFirst(p, steps[1..]);
    later := r.(pushed := r.pushed[|p.claim.pushed|..]);
  }

  lemma {:induction false} RepeatRuns(x: Input, m: Id, i: nat, added: set<Id>, p: Proof) returns (fuel: nat)
    requires Proves(x, m, i, added, p) && x.g[m].Repeat?
    ensures CanStart(x, m, i) && IsClaim(Run(x, m, i, added, fuel), p.claim)
    decreases p, 0
  {
    var c, steps := x.g[m].element, p.steps;
    RepeatSteps(x, m, i, added, p);
    hide InTurn, RepeatEnds, Proves, AgainEnds, RunRepeat, Suggest, Run;
    var f := ProofRuns(x, c, i, {}, steps[0]);
    var q, f' := Run(x, c, i, {}, f), 0;
    if steps[0].claim.ok {
      var later := p.claim.pushed[|q.pushed|..];
      f' := AgainRuns(x, c, q.index, q.added, added, steps[1..], Done(true, p.claim.index, p.claim.added, later));
    }
    fuel := f + f' + 1;
    RepeatJoins(x, m, i, added, f, f');
  }

  /** A repeat, from its element and what comes behind it. */
  lemma RepeatJoins(x: Input, m: Id, i: nat, added: set<Id>, f: nat, f': nat)
    requires CanStart(x, m, i) && i < |x.tokens| && x.g[m].Repeat? && x.g[m].element < |x.g|
    requires var r, c := Run(x, x.g[m].element, i, {}, f), x.g[m].element;
      r.Done? && (r.success ==> RunRepeat(x, c, r.index, r.added, added, f').Done?)
    ensures var c := x.g[m].element;
      var r := Run(x, c, i, {}, f);
      Run(x, m, i, added, f + f' + 1) ==
      if r.success then RunRepeat(x, c, r.index, r.added, added, f').After(r.pushed)
      else Done(false, i, added, r.pushed)
  {
    hide RunRepeat;
    var c := x.g[m].element;
    var r := Run(x, c, i, {}, f);
    MoreFuel(x, c, i, {}, f, f + f');
    if r.success {
      MoreFuelRepeat(x, c, r.index, r.added, added, f', f + f');
    }
  }

  /** A proof for a repeat begins with its element, and goes on as the repeat does. */
  lemma RepeatSteps(x: Input, m: Id, i: nat, added: set<Id>, p: Proof)
    requires Proves(x, m, i, added, p) && x.g[m].Repeat?
    ensures CanStart(x, m, i) && i < |x.tokens| && x.g[m].element < |x.g| && p.steps != []
    ensures Proves(x, x.g[m].element, i, {}, p.steps[0])
    ensures if p.steps[0].claim.ok then
        && p.claim.ok
        && var q, c := p.steps[0].claim, x.g[m].element;
        && InTurn(x, Same(c, |p.steps| - 1), q.index, q.added, p.steps[1..])
        && |q.pushed| <= |p.claim.pushed| && p.claim.pushed == q.pushed + p.claim.pushed[|q.pushed|..]
        && AgainEnds(x, c, q.index, q.added, added, p.steps[1..],
                     Done(true, p.claim.index, p.claim.added, p.claim.pushed[|q.pushed|..]))
      else p.claim == Claim(false, i, added, p.steps[0].claim.pushed)
  {
    hide Suggest;
    var c, steps := x.g[m].element, p.steps;
    assert steps == [steps[0]] + steps[1..];
    PushedFirst(steps[0], steps[1..]);
    RestInTurn(x, Same(c, |steps|), i, {}, steps);
    assert Same(c, |steps|)[1..] == Same(c, |steps| - 1);
    hide InTurn, Proves;
    assert |steps| > 1 ==> steps[1..][|steps| - 2] == steps[|steps| - 1];
  }

  /** A run comes to an outcome, at some depth, exactly if there is a proof of it. */
  lemma RunsExactly(x: Input, m: Id, i: nat, added: set<Id>, claim: Claim)
    requires CanStart(x, m, i)
    ensures (exists fuel: nat :: IsClaim(Run(x, m, i, added, fuel), claim)) <==>
            exists p :: Proves(x, m, i, added, p) && p.claim == claim
  {
    hide Run, Proves;
    if fuel: nat :| IsClaim(Run(x, m, i, added, fuel), claim) {
      var p := RunProves(x, m, i, added, fuel);
    }
    if p :| Proves(x, m, i, added, p) && p.claim == claim {
      var fuel := ProofRuns(x, m, i, added, p);
    }
  }
}
