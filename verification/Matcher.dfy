/** The matchers as the program runs them, on match states that share the tokens and the suggestions. */
module Matcher {
  import opened MatcherGraph
  import opened MatchRun

  class SuggestionVector {
    var items: seq<LeafKind>

    constructor ()
      ensures items == []
    {
      items := [];
    }

    method Push(kind: LeafKind)
      modifies this
      ensures items == old(items) + [kind]
    {
      items := items + [kind];
    }
  }

  class MatchState {
    const tokens: seq<string>
    const suggestions: SuggestionVector
    var added: set<Id>
    var tokenIndex: nat

    constructor (tokens: seq<string>, suggestions: SuggestionVector)
      ensures this.tokens == tokens && this.suggestions == suggestions && added == {} && tokenIndex == 0
    {
      this.tokens, this.suggestions, added, tokenIndex := tokens, suggestions, {}, 0;
    }

    /** A copy shares the tokens and suggestions, keeps the position and forgets which matchers were visited. */
    constructor Copy(state: MatchState)
      ensures tokens == state.tokens && suggestions == state.suggestions
      ensures added == {} && tokenIndex == state.tokenIndex
    {
      tokens, suggestions, added, tokenIndex := state.tokens, state.suggestions, {}, state.tokenIndex;
    }
  }

  ghost predicate Proposed(p: Proposal, mandatory: bool, state: MatchState, earlier: seq<LeafKind>)
    reads state, state.suggestions
  {
    && mandatory == p.mandatory
    && state.added == p.added
    && state.suggestions.items == earlier + p.pushed
  }

  method AddSuggestion(g: Graph, m: Id, state: MatchState) returns (mandatory: bool)
    requires Closed(g) && m < |g|
    modifies state`added, state.suggestions
    ensures Proposed(Suggest(g, m, old(state.added)), mandatory, state, old(state.suggestions.items))
    decreases Ids(|g|) - state.added, 0
  {
    if m in state.added {
      return true;
    }
    state.added := state.added + {m};
    assert RefersBelow(g[m], |g|);
    match g[m]
    case Leaf(kind) =>
      if Proposes(kind) {
        state.suggestions.Push(kind);
      }
      mandatory := true;
    case List(cs) =>
      mandatory := AddListSuggestions(g, cs, state);
    case Optional(c) =>
      var _ := AddSuggestion(g, c, state);
      mandatory := false;
    case Choice(cs) =>
      AddChoiceSuggestions(g, cs, state);
      mandatory := true;
    case Repeat(c) =>
      var _ := AddSuggestion(g, c, state);
      mandatory := true;
  }

  method AddListSuggestions(g: Graph, cs: seq<Id>, state: MatchState) returns (mandatory: bool)
    requires Closed(g) && forall i :: 0 <= i < |cs| ==> cs[i] < |g|
    modifies state`added, state.suggestions
    ensures Proposed(SuggestInOrder(g, cs, old(state.added)), mandatory, state, old(state.suggestions.items))
    decreases Ids(|g|) - state.added, 1
  {
    hide Suggest;
    ghost var seen, before := state.added, state.suggestions.items;
    ghost var pushed := [];
    var k := 0;
    assert cs[0..] == cs;
    while k < |cs|
      invariant k <= |cs| && seen <= state.added
      invariant state.suggestions.items == before + pushed
      invariant SuggestInOrder(g, cs, seen) == SuggestInOrder(g, cs[k..], state.added).After(pushed)
    {
      InOrderStep(g, cs, k, state.added, pushed);
      pushed := pushed + Suggest(g, cs[k], state.added).pushed;
      mandatory := AddSuggestion(g, cs[k], state);
      if mandatory {
        return;
      }
      k := k + 1;
    }
    mandatory := false;
  }

  method AddChoiceSuggestions(g: Graph, cs: seq<Id>, state: MatchState)
    requires Closed(g) && forall i :: 0 <= i < |cs| ==> cs[i] < |g|
    modifies state`added, state.suggestions
    ensures Proposed(SuggestEach(g, cs, old(state.added)), true, state, old(state.suggestions.items))
    decreases Ids(|g|) - state.added, 1
  {
    ghost var seen, before := state.added, state.suggestions.items;
    ghost var pushed := [];
    var k := 0;
    assert cs[0..] == cs;
    while k < |cs|
      invariant k <= |cs| && seen <= state.added
      invariant state.suggestions.items == before + pushed
      invariant SuggestEach(g, cs, seen) == SuggestEach(g, cs[k..], state.added).After(pushed)
    {
      pushed := pushed + Suggest(g, cs[k], state.added).pushed;
      assert cs[k..][1..] == cs[k + 1..];
      var _ := AddSuggestion(g, cs[k], state);
      k := k + 1;
    }
  }

  ghost predicate Leaves(r: Outcome, success: bool, state: MatchState, earlier: seq<LeafKind>)
    reads state, state.suggestions
  {
    && r.Done? && success == r.success
    && state.tokenIndex == r.index && state.added == r.added
    && state.suggestions.items == earlier + r.pushed
  }

  /** Match carries out `Run` whenever the run is finite, with `fuel` as its depth. */
  method Match(x: Input, m: Id, state: MatchState, ghost fuel: nat) returns (success: bool)
    requires x.tokens == state.tokens && CanStart(x, m, state.tokenIndex)
    requires Run(x, m, state.tokenIndex, state.added, fuel).Done?
    modifies state, state.suggestions
    ensures Leaves(Run(x, m, old(state.tokenIndex), old(state.added), fuel), success, state,
                   old(state.suggestions.items))
    decreases fuel, 0
  {
    ghost var start, added, before := state.tokenIndex, state.added, state.suggestions.items;
    assert RefersBelow(x.g[m], |x.g|);
    match x.g[m]
    case Leaf(kind) =>
      success := x.accepts(kind, state.tokens[state.tokenIndex]);
      if success {
        state.tokenIndex := state.tokenIndex + 1;
      }
    case List(cs) =>
      success := MatchList(x, cs, state, fuel - 1);
    case Optional(c) =>
      success := MatchOptional(x, c, state, fuel - 1);
    case Choice(cs) =>
      success := MatchChoice(x, cs, state, fuel - 1);
    case Repeat(c) =>
      success := MatchRepeat(x, c, state, fuel - 1);
  }

  method MatchOptional(x: Input, c: Id, state: MatchState, ghost fuel: nat) returns (success: bool)
    requires x.Valid() && c < |x.g| && x.tokens == state.tokens && state.tokenIndex < |x.tokens|
    requires Run(x, c, state.tokenIndex, {}, fuel).Done?
    modifies state`tokenIndex, state.suggestions
    ensures var r := Run(x, c, old(state.tokenIndex), {}, fuel);
      && success && state.tokenIndex == (if r.success then r.index else old(state.tokenIndex))
      && state.suggestions.items == old(state.suggestions.items) + r.pushed
    decreases fuel, 1
  {
    var childState := new MatchState.Copy(state);
    var childMatch := Match(x, c, childState, fuel);
    if childMatch {
      state.tokenIndex := childState.tokenIndex;
    }
    success := true;
  }

  /** Proposes the children from `from` on, up to the first mandatory one, and returns where that is. */
  method SuggestRemaining(g: Graph, cs: seq<Id>, from: nat, state: MatchState) returns (k: nat)
    requires Closed(g) && from <= |cs| && forall i :: 0 <= i < |cs| ==> cs[i] < |g|
    modifies state`added, state.suggestions
    ensures k <= |cs|
    ensures Proposed(SuggestInOrder(g, cs[from..], old(state.added)), k < |cs|, state, old(state.suggestions.items))
  {
    hide Suggest;
    ghost var seen, before := state.added, state.suggestions.items;
    ghost var pushed := [];
    k := from;
    while k < |cs|
      invariant k <= |cs| && seen <= state.added
      invariant state.suggestions.items == before + pushed
      invariant SuggestInOrder(g, cs[from..], seen) == SuggestInOrder(g, cs[k..], state.added).After(pushed)
    {
      InOrderStep(g, cs, k, state.added, pushed);
      pushed := pushed + Suggest(g, cs[k], state.added).pushed;
      var mandatory := AddSuggestion(g, cs[k], state);
      if mandatory {
        break;
      }
      k := k + 1;
    }
  }

  /** One turn of the loop of a list: matches the element at `k`. */
  method MatchItem(x: Input, cs: seq<Id>, k: nat, listState: MatchState, ghost start: nat, ghost fuel: nat)
    returns (matched: bool, ghost pushed: seq<LeafKind>)
    requires x.Valid() && x.tokens == listState.tokens && start <= listState.tokenIndex < |x.tokens|
    requires (forall k :: 0 <= k < |cs| ==> cs[k] < |x.g|) && k < |cs|
    requires RunItems(x, cs[k..], start, listState.tokenIndex, listState.added, fuel).Done?
    modifies listState, listState.suggestions
    ensures start <= listState.tokenIndex <= |x.tokens|
    ensures listState.suggestions.items == old(listState.suggestions.items) + pushed
    ensures var r := RunItems(x, cs[k..], start, old(listState.tokenIndex), old(listState.added), fuel);
      if matched then
        var rest := RunItems(x, cs[k + 1..], start, listState.tokenIndex, listState.added, fuel);
        rest.Done? && r == rest.After(pushed)
      else !r.success && r.index == start && r.pushed == pushed
    decreases fuel, 1
  {
    hide RunItems;
    ItemsStep(x, cs, k, start, listState.tokenIndex, listState.added, fuel);
    pushed := Run(x, cs[k], listState.tokenIndex, listState.added, fuel).pushed;
    hide Run;
    matched := Match(x, cs[k], listState, fuel);
  }

  method MatchList(x: Input, cs: seq<Id>, state: MatchState, ghost fuel: nat) returns (success: bool)
    requires x.Valid() && x.tokens == state.tokens && state.tokenIndex <= |x.tokens|
    requires forall k :: 0 <= k < |cs| ==> cs[k] < |x.g|
    requires RunItems(x, cs, state.tokenIndex, state.tokenIndex, {}, fuel).Done?
    modifies state`tokenIndex, state.suggestions
    ensures var r := RunItems(x, cs, old(state.tokenIndex), old(state.tokenIndex), {}, fuel);
      && success == r.success && state.tokenIndex == r.index
      && state.suggestions.items == old(state.suggestions.items) + r.pushed
    decreases fuel, 2
  {
    hide Run, RunItems, SuggestInOrder, Outcome.After;
    var listState := new MatchState.Copy(state);
    ghost var start, before := state.tokenIndex, state.suggestions.items;
    ghost var whole := RunItems(x, cs, start, start, {}, fuel);
    ghost var rest, pushed := whole, [];
    var k := 0;
    assert cs[0..] == cs;
    AfterNothing(whole);
    while k < |cs|
      invariant k <= |cs| && listState.tokens == x.tokens && listState.suggestions == state.suggestions
      invariant state.tokenIndex == start <= listState.tokenIndex <= |x.tokens|
      invariant state.suggestions.items == before + pushed
      invariant rest == RunItems(x, cs[k..], start, listState.tokenIndex, listState.added, fuel)
      invariant rest.Done? && whole == rest.After(pushed)
    {
      AfterPushed(rest, before, pushed);
      ItemsEnd(x, cs, k, start, listState.tokenIndex, listState.added, fuel);
      if listState.tokenIndex >= |listState.tokens| {
        k := SuggestRemaining(x.g, cs, k, listState);
        state.tokenIndex := listState.tokenIndex;
        return k == |cs|;
      }
      ghost var more;
      var matched;
      matched, more := MatchItem(x, cs, k, listState, start, fuel);
      if !matched {
        return false;
      }
      rest := RunItems(x, cs[k + 1..], start, listState.tokenIndex, listState.added, fuel);
      AfterAfter(rest, pushed, more);
      assert (before + pushed) + more == before + (pushed + more);
      pushed := pushed + more;
      k := k + 1;
    }
    AfterPushed(rest, before, pushed);
    ItemsEnd(x, cs, k, start, listState.tokenIndex, listState.added, fuel);
    state.tokenIndex := listState.tokenIndex;
    success := true;
  }

  method MatchChoice(x: Input, cs: seq<Id>, state: MatchState, ghost fuel: nat) returns (success: bool)
    requires x.Valid() && x.tokens == state.tokens && state.tokenIndex < |x.tokens|
    requires forall k :: 0 <= k < |cs| ==> cs[k] < |x.g|
    requires RunChoice(x, cs, state.tokenIndex, fuel).Done?
    modifies state`tokenIndex, state.suggestions
    ensures var r := RunChoice(x, cs, old(state.tokenIndex), fuel);
      && success == r.success && state.tokenIndex == r.index
      && state.suggestions.items == old(state.suggestions.items) + r.pushed
    decreases fuel, 1
  {
    hide Run, RunChoice;
    ghost var start, before := state.tokenIndex, state.suggestions.items;
    ghost var whole := RunChoice(x, cs, start, fuel);
    ghost var pushed, rest := [], whole;
    var k := 0;
    assert cs[0..] == cs;
    while k < |cs|
      invariant k <= |cs| && state.tokenIndex == start
      invariant state.suggestions.items == before + pushed
      invariant rest == RunChoice(x, cs[k..], start, fuel)
      invariant rest.Done? && whole == rest.After(pushed)
    {
      var choiceState := new MatchState.Copy(state);
      ChoiceStep(x, cs, k, start, fuel);
      ghost var r := Run(x, cs[k], start, {}, fuel);
      var matched := Match(x, cs[k], choiceState, fuel);
      if matched {
        state.tokenIndex := choiceState.tokenIndex;
        return true;
      }
      rest := RunChoice(x, cs[k + 1..], start, fuel);
      AfterAfter(rest, pushed, r.pushed);
      pushed := pushed + r.pushed;
      k := k + 1;
    }
    ChoiceStep(x, cs, k, start, fuel);
    success := false;
  }

  method MatchRepeat(x: Input, c: Id, state: MatchState, ghost fuel: nat) returns (success: bool)
    requires x.Valid() && c < |x.g| && x.tokens == state.tokens && state.tokenIndex < |x.tokens|
    requires Run(x, c, state.tokenIndex, {}, fuel).Done?
    requires var r := Run(x, c, state.tokenIndex, {}, fuel);
      r.success ==> RunRepeat(x, c, r.index, r.added, state.added, fuel).Done?
    modifies state, state.suggestions
    ensures var r := Run(x, c, old(state.tokenIndex), {}, fuel);
      Leaves(if r.success then RunRepeat(x, c, r.index, r.added, old(state.added), fuel).After(r.pushed)
             else Done(false, old(state.tokenIndex), old(state.added), r.pushed),
             success, state, old(state.suggestions.items))
    decreases fuel, 3
  {
    ghost var before := state.suggestions.items;
    var repeatState := new MatchState.Copy(state);
    ghost var r := Run(x, c, state.tokenIndex, {}, fuel);
    var matched := Match(x, c, repeatState, fuel);
    if !matched {
      return false;
    }
    MatchMore(x, c, state, repeatState, fuel);
    success := true;
    assert state.suggestions.items ==
           before + (r.pushed + RunRepeat(x, c, r.index, r.added, old(state.added), fuel).pushed);
  }

  /** One turn of the loop of a repeat whose element has matched up to where `repeatState` is. */
  method MatchAgain(x: Input, c: Id, state: MatchState, repeatState: MatchState, ghost fuel: nat)
    returns (done: bool)
    requires x.Valid() && c < |x.g| && x.tokens == state.tokens == repeatState.tokens
    requires state != repeatState && state.suggestions == repeatState.suggestions
    requires repeatState.tokenIndex <= |x.tokens|
    requires RunRepeat(x, c, repeatState.tokenIndex, repeatState.added, state.added, fuel).Done?
    modifies state, repeatState, state.suggestions
    ensures var r := RunRepeat(x, c, old(repeatState.tokenIndex), old(repeatState.added), old(state.added), fuel);
      if done then Leaves(r, true, state, old(state.suggestions.items))
      else
        && fuel > 0 && repeatState.tokenIndex <= |x.tokens| && state.added == old(state.added)
        && exists pushed ::
             && state.suggestions.items == old(state.suggestions.items) + pushed
             && r == RunRepeat(x, c, repeatState.tokenIndex, repeatState.added, state.added, fuel - 1).After(pushed)
    decreases fuel, 1
  {
    state.tokenIndex := repeatState.tokenIndex;
    if repeatState.tokenIndex >= |state.tokens| {
      var _ := AddSuggestion(x.g, c, state);
      return true;
    }
    assert fuel > 0;
    RepeatStep(x, c, repeatState.tokenIndex, repeatState.added, state.added, fuel);
    var matched := Match(x, c, repeatState, fuel - 1);
    done := !matched;
  }

  method MatchMore(x: Input, c: Id, state: MatchState, repeatState: MatchState, ghost fuel: nat)
    requires x.Valid() && c < |x.g| && x.tokens == state.tokens == repeatState.tokens
    requires state != repeatState && state.suggestions == repeatState.suggestions
    requires repeatState.tokenIndex <= |x.tokens|
    requires RunRepeat(x, c, repeatState.tokenIndex, repeatState.added, state.added, fuel).Done?
    modifies state, repeatState, state.suggestions
    ensures Leaves(RunRepeat(x, c, old(repeatState.tokenIndex), old(repeatState.added), old(state.added), fuel),
                   true, state, old(state.suggestions.items))
    decreases fuel, 2
  {
    ghost var before := state.suggestions.items;
    ghost var whole := RunRepeat(x, c, repeatState.tokenIndex, repeatState.added, state.added, fuel);
    ghost var pushed := [];
    ghost var left: nat := fuel;
    var done := false;
    while !done
      invariant left <= fuel
      invariant if done then Leaves(whole, true, state, before)
                else
                  && repeatState.tokenIndex <= |x.tokens|
                  && state.suggestions.items == before + pushed
                  && whole ==
                     RunRepeat(x, c, repeatState.tokenIndex, repeatState.added, state.added, left).After(pushed)
      decreases !done, left
    {
      ghost var items := state.suggestions.items;
      done := MatchAgain(x, c, state, repeatState, left);
      if !done {
        left := left - 1;
        ghost var rest := RunRepeat(x, c, repeatState.tokenIndex, repeatState.added, state.added, left);
        ghost var more := state.suggestions.items[|items|..];
        AfterAfter(rest, pushed, more);
        pushed := pushed + more;
      }
    }
  }
}
