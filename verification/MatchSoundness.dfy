/** Matching is sound for the context-free reading of the graph: what Match accepts is derivable,
    and every completion it proposes can legally come next. */
module MatchSoundness {
  import opened MatcherGraph
  import opened Derivations
  import opened MatchRun

  ghost predicate DeriveAll(x: Input, cs: seq<Id>, ts: seq<Tree>) {
    |ts| == |cs| && forall k :: 0 <= k < |cs| ==> Derives(x, cs[k], ts[k])
  }

  ghost predicate DeriveEach(x: Input, c: Id, ts: seq<Tree>) {
    forall k :: 0 <= k < |ts| ==> Derives(x, c, ts[k])
  }

  /** The trees `done` cover a proper prefix of the list `cs`, and the next child expects `kind` along `e`. */
  ghost predicate ExpectsWithin(x: Input, cs: seq<Id>, done: seq<Tree>, e: Edge, kind: LeafKind) {
    |done| < |cs| && DeriveAll(x, cs[..|done|], done) && Expects(x, cs[|done|], e, kind)
  }

  lemma DeriveAllCons(x: Input, cs: seq<Id>, t: Tree, ts: seq<Tree>)
    requires cs != [] && Derives(x, cs[0], t) && DeriveAll(x, cs[1..], ts)
    ensures DeriveAll(x, cs, [t] + ts) && Yields([t] + ts) == Yield(t) + Yields(ts)
  {
    YieldsCons(t, ts);
    forall k | 0 <= k < |cs| ensures Derives(x, cs[k], ([t] + ts)[k]) {
      if k > 0 { assert cs[1..][k - 1] == cs[k]; }
    }
  }

  lemma ExpectsWithinCons(x: Input, cs: seq<Id>, t: Tree, done: seq<Tree>, e: Edge, kind: LeafKind)
    requires cs != [] && Derives(x, cs[0], t) && ExpectsWithin(x, cs[1..], done, e, kind)
    ensures ExpectsWithin(x, cs, [t] + done, e, kind) && Yields([t] + done) == Yield(t) + Yields(done)
  {
    var n := |done| + 1;
    assert cs[1..][..|done|] == cs[..n][1..];
    DeriveAllCons(x, cs[..n], t, done);
    assert |[t] + done| == n;
  }

  lemma Joined(tokens: seq<string>, i: nat, j: nat, first: seq<string>, done: seq<string>, rest: seq<string>)
    requires i <= j <= |tokens| && first == tokens[i..j] && done + rest == tokens[j..]
    ensures (first + done) + rest == tokens[i..]
  {
    assert (first + done) + rest == first + (done + rest);
    assert tokens[i..] == tokens[i..j] + tokens[j..];
  }

  lemma SlicesJoin(tokens: seq<string>, i: nat, j: nat, k: nat)
    requires i <= j <= k <= |tokens|
    ensures tokens[i..j] + tokens[j..k] == tokens[i..k]
  {
  }

  // ---------- AddSuggestion ----------

  /** A matcher reported as optional derives the empty sequence. */
  lemma {:induction false} OptionalIsNullable(x: Input, m: Id, added: set<Id>) returns (t: Tree)
    requires x.Valid() && m < |x.g| && !Suggest(x.g, m, added).mandatory
    ensures Derives(x, m, t) && Yield(t) == []
    decreases Ids(|x.g|) - added, 0, 0
  {
    assert RefersBelow(x.g[m], |x.g|);
    match x.g[m]
    case List(cs) =>
      var ts := OptionalItemsAreNullable(x, cs, added + {m});
      t := Items(ts);
    case Optional(_) =>
      t := Absent;
    case _ =>
      t := Absent;
  }

  lemma {:induction false} OptionalItemsAreNullable(x: Input, cs: seq<Id>, added: set<Id>) returns (ts: seq<Tree>)
    requires x.Valid() && forall i :: 0 <= i < |cs| ==> cs[i] < |x.g|
    requires !SuggestInOrder(x.g, cs, added).mandatory
    ensures DeriveAll(x, cs, ts) && Yields(ts) == []
    decreases Ids(|x.g|) - added, 1, |cs|
  {
    if cs == [] {
      ts := [];
    } else {
      var t := OptionalIsNullable(x, cs[0], added);
      var rest := OptionalItemsAreNullable(x, cs[1..], Suggest(x.g, cs[0], added).added);
      ts := [t] + rest;
      DeriveAllCons(x, cs, t, rest);
    }
  }

  /** Every kind of leaf proposed for a matcher can be its first leaf. */
  lemma {:induction false} SuggestExpects(x: Input, m: Id, added: set<Id>, n: nat) returns (e: Edge)
    requires x.Valid() && m < |x.g| && n < |Suggest(x.g, m, added).pushed|
    ensures Expects(x, m, e, Suggest(x.g, m, added).pushed[n]) && EdgeYield(e) == []
    decreases Ids(|x.g|) - added, 0, 0
  {
    assert RefersBelow(x.g[m], |x.g|);
    var seen := added + {m};
    match x.g[m]
    case Leaf(_) =>
      e := Here;
    case List(cs) =>
      var done, r := SuggestInOrderExpects(x, cs, seen, n);
      e := InItems(done, r);
      assert cs[..|done|] <= cs;
    case Optional(c) =>
      var r := SuggestExpects(x, c, seen, n);
      e := InPresent(r);
    case Choice(cs) =>
      var k, r := SuggestEachExpects(x, cs, seen, n);
      e := InPicked(k, r);
    case Repeat(c) =>
      var r := SuggestExpects(x, c, seen, n);
      e := InRepeated([], r);
  }

  lemma {:induction false} SuggestInOrderExpects(x: Input, cs: seq<Id>, added: set<Id>, n: nat)
      returns (done: seq<Tree>, e: Edge)
    requires x.Valid() && forall i :: 0 <= i < |cs| ==> cs[i] < |x.g|
    requires n < |SuggestInOrder(x.g, cs, added).pushed|
    ensures ExpectsWithin(x, cs, done, e, SuggestInOrder(x.g, cs, added).pushed[n])
    ensures Yields(done) == [] && EdgeYield(e) == []
    decreases Ids(|x.g|) - added, 1, |cs|
  {
    var p := Suggest(x.g, cs[0], added);
    if n < |p.pushed| {
      e := SuggestExpects(x, cs[0], added, n);
      done := [];
    } else {
      var t := OptionalIsNullable(x, cs[0], added);
      var rest;
      rest, e := SuggestInOrderExpects(x, cs[1..], p.added, n - |p.pushed|);
      done := [t] + rest;
      ExpectsWithinCons(x, cs, t, rest, e, SuggestInOrder(x.g, cs, added).pushed[n]);
    }
  }

  lemma {:induction false} SuggestEachExpects(x: Input, cs: seq<Id>, added: set<Id>, n: nat) returns (k: nat, e: Edge)
    requires x.Valid() && forall i :: 0 <= i < |cs| ==> cs[i] < |x.g|
    requires n < |SuggestEach(x.g, cs, added).pushed|
    ensures k < |cs| && Expects(x, cs[k], e, SuggestEach(x.g, cs, added).pushed[n]) && EdgeYield(e) == []
    decreases Ids(|x.g|) - added, 1, |cs|
  {
    var p := Suggest(x.g, cs[0], added);
    if n < |p.pushed| {
      e := SuggestExpects(x, cs[0], added, n);
      k := 0;
    } else {
      var k';
      k', e := SuggestEachExpects(x, cs[1..], p.added, n - |p.pushed|);
      k := k' + 1;
    }
  }

  // ---------- Match ----------

  /** A successful match has read a sequence its matcher derives. */
  lemma {:induction false} MatchDerives(x: Input, m: Id, i: nat, added: set<Id>, fuel: nat) returns (t: Tree)
    requires CanStart(x, m, i)
    requires Run(x, m, i, added, fuel).Done? && Run(x, m, i, added, fuel).success
    ensures Derives(x, m, t) && Yield(t) == x.tokens[i..Run(x, m, i, added, fuel).index]
    decreases fuel, 0, 0
  {
    hide RunItems, RunChoice, RunRepeat, Yields;
    assert RefersBelow(x.g[m], |x.g|);
    match x.g[m]
    case Leaf(_) =>
      t := Token(x.tokens[i]);
    case List(cs) =>
      var ts := ItemsDerive(x, cs, i, i, {}, fuel - 1);
      t := Items(ts);
    case Optional(c) =>
      if Run(x, c, i, {}, fuel - 1).success {
        var k := MatchDerives(x, c, i, {}, fuel - 1);
        t := Present(k);
      } else {
        t := Absent;
      }
    case Choice(cs) =>
      var k, r := ChoiceDerives(x, cs, i, fuel - 1);
      t := Picked(k, r);
    case Repeat(c) =>
      var r := Run(x, c, i, {}, fuel - 1);
      var first := MatchDerives(x, c, i, {}, fuel - 1);
      var rest := RepeatDerives(x, c, r.index, r.added, added, fuel - 1);
      t := Repeated([first] + rest);
      YieldsCons(first, rest);
      SlicesJoin(x.tokens, i, r.index, RunRepeat(x, c, r.index, r.added, added, fuel - 1).index);
  }

  lemma {:induction false} ItemsDerive(x: Input, cs: seq<Id>, start: nat, i: nat, added: set<Id>, fuel: nat)
      returns (ts: seq<Tree>)
    requires x.Valid() && start <= i <= |x.tokens| && forall k :: 0 <= k < |cs| ==> cs[k] < |x.g|
    requires var r := RunItems(x, cs, start, i, added, fuel); r.Done? && r.success
    ensures DeriveAll(x, cs, ts) && Yields(ts) == x.tokens[i..RunItems(x, cs, start, i, added, fuel).index]
    decreases fuel, 1, |cs|
  {
    hide Run;
    if cs == [] {
      ts := [];
    } else if i == |x.tokens| {
      ts := OptionalItemsAreNullable(x, cs, added);
    } else {
      var r := Run(x, cs[0], i, added, fuel);
      var t := MatchDerives(x, cs[0], i, added, fuel);
      var rest := ItemsDerive(x, cs[1..], start, r.index, r.added, fuel);
      ts := [t] + rest;
      DeriveAllCons(x, cs, t, rest);
      SlicesJoin(x.tokens, i, r.index, RunItems(x, cs, start, i, added, fuel).index);
    }
  }

  lemma {:induction false} ChoiceDerives(x: Input, cs: seq<Id>, i: nat, fuel: nat) returns (k: nat, t: Tree)
    requires x.Valid() && i < |x.tokens| && forall k :: 0 <= k < |cs| ==> cs[k] < |x.g|
    requires RunChoice(x, cs, i, fuel).Done? && RunChoice(x, cs, i, fuel).success
    ensures k < |cs| && Derives(x, cs[k], t) && Yield(t) == x.tokens[i..RunChoice(x, cs, i, fuel).index]
    decreases fuel, 1, |cs|
  {
    if Run(x, cs[0], i, {}, fuel).success {
      t := MatchDerives(x, cs[0], i, {}, fuel);
      k := 0;
    } else {
      var k';
      k', t := ChoiceDerives(x, cs[1..], i, fuel);
      k := k' + 1;
    }
  }

  lemma {:induction false} RepeatDerives(x: Input, c: Id, i: nat, inner: set<Id>, added: set<Id>, fuel: nat)
      returns (ts: seq<Tree>)
    requires x.Valid() && c < |x.g| && i <= |x.tokens| && RunRepeat(x, c, i, inner, added, fuel).Done?
    ensures DeriveEach(x, c, ts) && Yields(ts) == x.tokens[i..RunRepeat(x, c, i, inner, added, fuel).index]
    decreases fuel, 1, 0
  {
    hide Run;
    ts := [];
    if i < |x.tokens| {
      var r := Run(x, c, i, inner, fuel - 1);
      if r.success {
        var t := MatchDerives(x, c, i, inner, fuel - 1);
        var rest := RepeatDerives(x, c, r.index, r.added, added, fuel - 1);
        ts := [t] + rest;
        YieldsCons(t, rest);
        SlicesJoin(x.tokens, i, r.index, RunRepeat(x, c, i, inner, added, fuel).index);
      }
    }
  }

  /** Every kind of leaf proposed during a match may follow all the tokens from where the match began. */
  lemma {:induction false} MatchExpects(x: Input, m: Id, i: nat, added: set<Id>, fuel: nat, n: nat) returns (e: Edge)
    requires CanStart(x, m, i)
    requires Run(x, m, i, added, fuel).Done? && n < |Run(x, m, i, added, fuel).pushed|
    ensures Expects(x, m, e, Run(x, m, i, added, fuel).pushed[n]) && EdgeYield(e) == x.tokens[i..]
    decreases fuel, 0, 1
  {
    assert RefersBelow(x.g[m], |x.g|);
    var kind := Run(x, m, i, added, fuel).pushed[n];
    match x.g[m]
    case Leaf(_) =>
      assert false;
    case List(cs) =>
      var done, r := ItemsExpect(x, cs, i, i, {}, fuel - 1, n);
      e := InItems(done, r);
      assert cs[..|done|] <= cs;
    case Optional(c) =>
      var r := MatchExpects(x, c, i, {}, fuel - 1, n);
      e := InPresent(r);
    case Choice(cs) =>
      var k, r := ChoiceExpects(x, cs, i, fuel - 1, n);
      e := InPicked(k, r);
    case Repeat(c) =>
      e := RepeatedExpects(x, m, i, added, fuel, n);
  }

  lemma {:induction false} RepeatedExpects(x: Input, m: Id, i: nat, added: set<Id>, fuel: nat, n: nat) returns (e: Edge)
    requires CanStart(x, m, i) && x.g[m].Repeat? && RefersBelow(x.g[m], |x.g|)
    requires Run(x, m, i, added, fuel).Done? && n < |Run(x, m, i, added, fuel).pushed|
    ensures Expects(x, m, e, Run(x, m, i, added, fuel).pushed[n]) && EdgeYield(e) == x.tokens[i..]
    decreases fuel, 0, 0
  {
    hide RunItems, RunChoice, RunRepeat, Suggest;
    var c := x.g[m].element;
    var r := Run(x, c, i, {}, fuel - 1);
    if n < |r.pushed| {
      var s := MatchExpects(x, c, i, {}, fuel - 1, n);
      e := InRepeated([], s);
    } else {
      var first := MatchDerives(x, c, i, {}, fuel - 1);
      var done, s := RepeatExpects(x, c, r.index, r.added, added, fuel - 1, n - |r.pushed|);
      e := InRepeated([first] + done, s);
      YieldsCons(first, done);
      Joined(x.tokens, i, r.index, Yield(first), Yields(done), EdgeYield(s));
    }
  }

  lemma {:induction false} ItemsExpect(x: Input, cs: seq<Id>, start: nat, i: nat, added: set<Id>, fuel: nat, n: nat)
      returns (done: seq<Tree>, e: Edge)
    requires x.Valid() && start <= i <= |x.tokens| && forall k :: 0 <= k < |cs| ==> cs[k] < |x.g|
    requires var r := RunItems(x, cs, start, i, added, fuel); r.Done? && n < |r.pushed|
    ensures ExpectsWithin(x, cs, done, e, RunItems(x, cs, start, i, added, fuel).pushed[n])
    ensures Yields(done) + EdgeYield(e) == x.tokens[i..]
    decreases fuel, 1, |cs|
  {
    hide Run;
    if i == |x.tokens| {
      done, e := SuggestInOrderExpects(x, cs, added, n);
    } else {
      var r := Run(x, cs[0], i, added, fuel);
      if n < |r.pushed| {
        e := MatchExpects(x, cs[0], i, added, fuel, n);
        done := [];
      } else {
        var t := MatchDerives(x, cs[0], i, added, fuel);
        var rest;
        rest, e := ItemsExpect(x, cs[1..], start, r.index, r.added, fuel, n - |r.pushed|);
        done := [t] + rest;
        ExpectsWithinCons(x, cs, t, rest, e, RunItems(x, cs, start, i, added, fuel).pushed[n]);
        Joined(x.tokens, i, r.index, Yield(t), Yields(rest), EdgeYield(e));
      }
    }
  }

  lemma {:induction false} ChoiceExpects(x: Input, cs: seq<Id>, i: nat, fuel: nat, n: nat) returns (k: nat, e: Edge)
    requires x.Valid() && i < |x.tokens| && forall k :: 0 <= k < |cs| ==> cs[k] < |x.g|
    requires RunChoice(x, cs, i, fuel).Done? && n < |RunChoice(x, cs, i, fuel).pushed|
    ensures k < |cs| && Expects(x, cs[k], e, RunChoice(x, cs, i, fuel).pushed[n]) && EdgeYield(e) == x.tokens[i..]
    decreases fuel, 1, |cs|
  {
    var r := Run(x, cs[0], i, {}, fuel);
    if n < |r.pushed| {
      e := MatchExpects(x, cs[0], i, {}, fuel, n);
      k := 0;
    } else {
      var k';
      k', e := ChoiceExpects(x, cs[1..], i, fuel, n - |r.pushed|);
      k := k' + 1;
    }
  }

  lemma {:induction false} RepeatExpects(x: Input, c: Id, i: nat, inner: set<Id>, added: set<Id>, fuel: nat, n: nat)
      returns (done: seq<Tree>, e: Edge)
    requires x.Valid() && c < |x.g| && i <= |x.tokens|
    requires var r := RunRepeat(x, c, i, inner, added, fuel); r.Done? && n < |r.pushed|
    ensures DeriveEach(x, c, done) && Expects(x, c, e, RunRepeat(x, c, i, inner, added, fuel).pushed[n])
    ensures Yields(done) + EdgeYield(e) == x.tokens[i..]
    decreases fuel, 1, 0
  {
    if i == |x.tokens| {
      e := SuggestExpects(x, c, added, n);
      done := [];
    } else {
      var r := Run(x, c, i, inner, fuel - 1);
      if n < |r.pushed| {
        e := MatchExpects(x, c, i, inner, fuel - 1, n);
        done := [];
      } else {
        var t := MatchDerives(x, c, i, inner, fuel - 1);
        var rest;
        rest, e := RepeatExpects(x, c, r.index, r.added, added, fuel - 1, n - |r.pushed|);
        done := [t] + rest;
        YieldsCons(t, rest);
        Joined(x.tokens, i, r.index, Yield(t), Yields(rest), EdgeYield(e));
      }
    }
  }

  // ---------- main results ----------

  /** Acceptance is sound: a match of all the tokens means the whole statement is derivable. */
  lemma AcceptanceIsSound(x: Input, root: Id, fuel: nat)
    requires CanStart(x, root, 0) && var r := Run(x, root, 0, {}, fuel); r.Done? && r.success && r.index == |x.tokens|
    ensures exists t :: Derives(x, root, t) && Yield(t) == x.tokens
  {
    var t := MatchDerives(x, root, 0, {}, fuel);
    assert x.tokens[0..|x.tokens|] == x.tokens;
  }

  /** Completion is sound: when every matcher derives something, each proposed leaf, filled in with any
      token it accepts, extends the tokens typed so far to the beginning of a derivable statement. */
  lemma CompletionIsSound(x: Input, root: Id, fuel: nat, n: nat, token: string, some: seq<Tree>)
    requires CanStart(x, root, 0) && Productive(x, some)
    requires var r := Run(x, root, 0, {}, fuel); r.Done? && n < |r.pushed| && x.accepts(r.pushed[n], token)
    ensures exists t :: Derives(x, root, t) && x.tokens + [token] <= Yield(t)
  {
    var e := MatchExpects(x, root, 0, {}, fuel, n);
    assert x.tokens[0..] == x.tokens;
    var t := Complete(x, root, e, Run(x, root, 0, {}, fuel).pushed[n], token, some);
  }
}
