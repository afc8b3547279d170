/** What matching computes, as functions: the outcome of AddSuggestion and of Match on any graph.
    Match need not terminate on every graph, so its outcome is computed with a bound on the depth. */
module MatchRun {
  import opened MatcherGraph

  /** The outcome of AddSuggestion: the matchers visited so far and the proposals made, in order. */
  datatype Proposal = Proposal(mandatory: bool, added: set<Id>, pushed: seq<LeafKind>) {
    function After(earlier: seq<LeafKind>): Proposal {
      this.(pushed := earlier + pushed)
    }
  }

  function Suggest(g: Graph, m: Id, added: set<Id>): (p: Proposal)
    requires Closed(g) && m < |g|
    ensures added <= p.added
    decreases Ids(|g|) - added, 0, 0
  {
    if m in added then Proposal(true, added, [])
    else
      var seen := added + {m};
      assert RefersBelow(g[m], |g|);
      match g[m]
      case Leaf(kind) => Proposal(true, seen, if Proposes(kind) then [kind] else [])
      case List(cs) => SuggestInOrder(g, cs, seen)
      case Optional(c) => Suggest(g, c, seen).(mandatory := false)
      case Choice(cs) => SuggestEach(g, cs, seen)
      case Repeat(c) => Suggest(g, c, seen).(mandatory := true)
  }

  /** Visits matchers in order up to the first one that must be matched. */
  function SuggestInOrder(g: Graph, cs: seq<Id>, added: set<Id>): (p: Proposal)
    requires Closed(g) && forall i :: 0 <= i < |cs| ==> cs[i] < |g|
    ensures added <= p.added
    decreases Ids(|g|) - added, 1, |cs|
  {
    if cs == [] then Proposal(false, added, [])
    else
      var p := Suggest(g, cs[0], added);
      if p.mandatory then p else SuggestInOrder(g, cs[1..], p.added).After(p.pushed)
  }

  /** Visits all of the matchers. */
  function SuggestEach(g: Graph, cs: seq<Id>, added: set<Id>): (p: Proposal)
    requires Closed(g) && forall i :: 0 <= i < |cs| ==> cs[i] < |g|
    ensures added <= p.added && p.mandatory
    decreases Ids(|g|) - added, 1, |cs|
  {
    if cs == [] then Proposal(true, added, [])
    else
      var p := Suggest(g, cs[0], added);
      SuggestEach(g, cs[1..], p.added).After(p.pushed)
  }

  /** The outcome of Match: whether it succeeded, and the state it leaves behind. */
  datatype Outcome =
    | Timeout
    | Done(success: bool, index: nat, added: set<Id>, pushed: seq<LeafKind>)
  {
    function After(earlier: seq<LeafKind>): Outcome {
      if Timeout? then Timeout else this.(pushed := earlier + pushed)
    }
  }

  /** A matcher other than a list is only asked to match while there are tokens left. */
  ghost predicate CanStart(x: Input, m: Id, i: nat) {
    x.Valid() && m < |x.g| && i <= |x.tokens| && (x.g[m].List? || i < |x.tokens|)
  }

  ghost predicate InRange(x: Input, i: nat, r: Outcome) {
    r.Done? ==> i <= r.index <= |x.tokens| && (r.success || r.index == i || r.index == |x.tokens|)
  }

  function Run(x: Input, m: Id, i: nat, added: set<Id>, fuel: nat): (r: Outcome)
    requires CanStart(x, m, i)
    ensures InRange(x, i, r)
    decreases fuel, 0, 0
  {
    if fuel == 0 then Timeout
    else
      assert RefersBelow(x.g[m], |x.g|);
      match x.g[m]
      case Leaf(kind) =>
        var ok := x.accepts(kind, x.tokens[i]);
        Done(ok, if ok then i + 1 else i, added, [])
      case List(cs) =>
        var r := RunItems(x, cs, i, i, {}, fuel - 1);
        if r.Timeout? then Timeout else r.(added := added)
      case Optional(c) =>
        var r := Run(x, c, i, {}, fuel - 1);
        if r.Timeout? then Timeout else Done(true, if r.success then r.index else i, added, r.pushed)
      case Choice(cs) =>
        var r := RunChoice(x, cs, i, fuel - 1);
        if r.Timeout? then Timeout else r.(added := added)
      case Repeat(c) =>
        var r := Run(x, c, i, {}, fuel - 1);
        if r.Timeout? then Timeout
        else if !r.success then Done(false, i, added, r.pushed)
        else RunRepeat(x, c, r.index, r.added, added, fuel - 1).After(r.pushed)
  }

  /** The rest of a list that began at `start` and has got to token `i`. When the tokens run out,
      the list succeeds exactly if all that is left of it is optional. */
  function RunItems(x: Input, cs: seq<Id>, start: nat, i: nat, added: set<Id>, fuel: nat): (r: Outcome)
    requires x.Valid() && start <= i <= |x.tokens| && forall k :: 0 <= k < |cs| ==> cs[k] < |x.g|
    ensures InRange(x, start, r) && (r.Done? && r.success ==> i <= r.index)
    decreases fuel, 1, |cs|
  {
    if cs == [] then Done(true, i, added, [])
    else if i == |x.tokens| then
      var p := SuggestInOrder(x.g, cs, added);
      Done(!p.mandatory, i, p.added, p.pushed)
    else
      var r := Run(x, cs[0], i, added, fuel);
      if r.Timeout? then Timeout
      else if !r.success then Done(false, start, r.added, r.pushed)
      else RunItems(x, cs[1..], start, r.index, r.added, fuel).After(r.pushed)
  }

  function RunChoice(x: Input, cs: seq<Id>, i: nat, fuel: nat): (r: Outcome)
    requires x.Valid() && i < |x.tokens| && forall k :: 0 <= k < |cs| ==> cs[k] < |x.g|
    ensures InRange(x, i, r)
    decreases fuel, 1, |cs|
  {
    if cs == [] then Done(false, i, {}, [])
    else
      var r := Run(x, cs[0], i, {}, fuel);
      if r.Timeout? || r.success then r else RunChoice(x, cs[1..], i, fuel).After(r.pushed)
  }

  /** The rest of a repeat that has matched its element up to token `i`. */
  function RunRepeat(x: Input, c: Id, i: nat, inner: set<Id>, added: set<Id>, fuel: nat): (r: Outcome)
    requires x.Valid() && c < |x.g| && i <= |x.tokens|
    ensures InRange(x, i, r) && (r.Done? ==> r.success)
    decreases fuel, 1, 0
  {
    if i == |x.tokens| then
      var p := Suggest(x.g, c, added);
      Done(true, i, p.added, p.pushed)
    else if fuel == 0 then Timeout
    else
      var r := Run(x, c, i, inner, fuel - 1);
      if r.Timeout? then Timeout
      else if !r.success then Done(true, i, added, r.pushed)
      else RunRepeat(x, c, r.index, r.added, added, fuel - 1).After(r.pushed)
  }

  lemma AfterAfter(r: Outcome, a: seq<LeafKind>, b: seq<LeafKind>)
    ensures r.After(b).After(a) == r.After(a + b)
  {
    if r.Done? {
      assert a + (b + r.pushed) == (a + b) + r.pushed;
    }
  }

  lemma AfterNothing(r: Outcome)
    ensures r.After([]) == r
  {
    assert r.Done? ==> [] + r.pushed == r.pushed;
  }

  /** What has been pushed all in all. */
  lemma AfterPushed(r: Outcome, before: seq<LeafKind>, earlier: seq<LeafKind>)
    requires r.Done?
    ensures var s := r.After(earlier);
      && s.Done? && s.success == r.success && s.index == r.index && s.added == r.added
      && before + s.pushed == (before + earlier) + r.pushed
  {
    assert before + (earlier + r.pushed) == (before + earlier) + r.pushed;
  }

  /** One turn of the list loop. */
  lemma ItemsStep(x: Input, cs: seq<Id>, k: nat, start: nat, i: nat, added: set<Id>, fuel: nat)
    requires x.Valid() && k < |cs| && start <= i < |x.tokens| && forall k :: 0 <= k < |cs| ==> cs[k] < |x.g|
    ensures RunItems(x, cs[k..], start, i, added, fuel) ==
            var r := Run(x, cs[k], i, added, fuel);
            if r.Timeout? then Timeout
            else if !r.success then Done(false, start, r.added, r.pushed)
            else RunItems(x, cs[k + 1..], start, r.index, r.added, fuel).After(r.pushed)
  {
    assert cs[k..][1..] == cs[k + 1..];
  }

  /** One more element of a list whose suggestions are collected. */
  lemma InOrderStep(g: Graph, cs: seq<Id>, k: nat, added: set<Id>, pushed: seq<LeafKind>)
    requires Closed(g) && k < |cs| && forall i :: 0 <= i < |cs| ==> cs[i] < |g|
    ensures var p := Suggest(g, cs[k], added);
      SuggestInOrder(g, cs[k..], added).After(pushed) ==
      (if p.mandatory then p.After(pushed) else SuggestInOrder(g, cs[k + 1..], p.added).After(pushed + p.pushed))
  {
    hide Suggest;
    assert cs[k..][1..] == cs[k + 1..];
  }

  /** A list none or all of whose elements are left, or that the tokens leave in the middle. */
  lemma ItemsEnd(x: Input, cs: seq<Id>, k: nat, start: nat, i: nat, added: set<Id>, fuel: nat)
    requires x.Valid() && k <= |cs| && start <= i <= |x.tokens| && forall k :: 0 <= k < |cs| ==> cs[k] < |x.g|
    ensures k == |cs| ==> RunItems(x, cs[k..], start, i, added, fuel) == Done(true, i, added, [])
    ensures k < |cs| && i == |x.tokens| ==>
      var p := SuggestInOrder(x.g, cs[k..], added);
      RunItems(x, cs[k..], start, i, added, fuel) == Done(!p.mandatory, i, p.added, p.pushed)
  {
    hide Run;
  }

  /** One more element of a choice. */
  lemma ChoiceStep(x: Input, cs: seq<Id>, k: nat, i: nat, fuel: nat)
    requires x.Valid() && k <= |cs| && i < |x.tokens| && forall k :: 0 <= k < |cs| ==> cs[k] < |x.g|
    ensures k == |cs| ==> RunChoice(x, cs[k..], i, fuel) == Done(false, i, {}, [])
    ensures k < |cs| ==>
      var r := Run(x, cs[k], i, {}, fuel);
      RunChoice(x, cs[k..], i, fuel) ==
      (if r.Timeout? || r.success then r else RunChoice(x, cs[k + 1..], i, fuel).After(r.pushed))
  {
    hide Run;
    if k < |cs| {
      assert cs[k..][1..] == cs[k + 1..];
    }
  }

  /** One turn of the repeat loop. */
  lemma RepeatStep(x: Input, c: Id, i: nat, inner: set<Id>, added: set<Id>, fuel: nat)
    requires x.Valid() && c < |x.g| && i < |x.tokens| && fuel > 0
    ensures RunRepeat(x, c, i, inner, added, fuel) ==
            var r := Run(x, c, i, inner, fuel - 1);
            if r.Timeout? then Timeout
            else if !r.success then Done(true, i, added, r.pushed)
            else RunRepeat(x, c, r.index, r.added, added, fuel - 1).After(r.pushed)
  {
  }
}
