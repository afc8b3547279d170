/** The graph of matchers a grammar is compiled to: leaves that look at one token,
    and inner matchers that refer to other matchers by their allocation index.
    The graph may be cyclic, as grammar rules are recursive. */
module MatcherGraph {
  type Id = nat

  datatype LeafKind = Keyword(text: string) | Builtin(name: string)

  datatype Matcher =
    | Leaf(kind: LeafKind)
    | List(children: seq<Id>)
    | Optional(child: Id)
    | Choice(options: seq<Id>)
    | Repeat(element: Id)

  type Graph = seq<Matcher>

  /** Every reference held by `m` is below `n`. */
  predicate RefersBelow(m: Matcher, n: nat) {
    match m
    case Leaf(_) => true
    case List(cs) => forall i :: 0 <= i < |cs| ==> cs[i] < n
    case Optional(c) => c < n
    case Choice(cs) => forall i :: 0 <= i < |cs| ==> cs[i] < n
    case Repeat(c) => c < n
  }

  /** Every reference in the graph names an allocated matcher. */
  predicate Closed(g: Graph) {
    forall m :: 0 <= m < |g| ==> RefersBelow(g[m], |g|)
  }

  /** The ids below n. */
  ghost function Ids(n: nat): (ids: set<Id>)
    ensures forall i: nat :: i in ids <==> i < n
  {
    if n == 0 then {} else Ids(n - 1) + {n - 1}
  }

  /** Number, string and operator literals never propose a completion. */
  predicate Proposes(kind: LeafKind) {
    kind.Keyword? || kind.name !in ["NumberLiteral", "StringLiteral", "OperatorLiteral"]
  }

  /** What one run of the matcher depends on: the graph, which tokens a leaf accepts, the tokens. */
  datatype Input = Input(g: Graph, accepts: (LeafKind, string) -> bool, tokens: seq<string>) {
    ghost predicate Valid() {
      Closed(g)
    }
  }
}

/** The context-free reading of a matcher graph. A choice may take any alternative,
    an optional may be empty, a repeat stands for one or more elements. */
module Derivations {
  import opened MatcherGraph

  /** A parse tree. */
  datatype Tree =
    | Token(text: string)
    | Items(kids: seq<Tree>)
    | Absent
    | Present(kid: Tree)
    | Picked(index: nat, kid: Tree)
    | Repeated(kids: seq<Tree>)

  ghost predicate Derives(x: Input, m: Id, t: Tree)
    decreases t
  {
    m < |x.g| &&
    match x.g[m]
    case Leaf(kind) => t.Token? && x.accepts(kind, t.text)
    case List(cs) => t.Items? && |t.kids| == |cs| && forall i :: 0 <= i < |cs| ==> Derives(x, cs[i], t.kids[i])
    case Optional(c) => t.Absent? || (t.Present? && Derives(x, c, t.kid))
    case Choice(cs) => t.Picked? && t.index < |cs| && Derives(x, cs[t.index], t.kid)
    case Repeat(c) => t.Repeated? && |t.kids| > 0 && forall i :: 0 <= i < |t.kids| ==> Derives(x, c, t.kids[i])
  }

  /** The tokens at the leaves of a tree, left to right. */
  function Yield(t: Tree): seq<string>
    decreases t
  {
    match t
    case Token(text) => [text]
    case Items(kids) => Yields(kids)
    case Absent => []
    case Present(kid) => Yield(kid)
    case Picked(_, kid) => Yield(kid)
    case Repeated(kids) => Yields(kids)
  }

  function Yields(ts: seq<Tree>): seq<string>
    decreases ts
  {
    if ts == [] then [] else Yields(ts[..|ts| - 1]) + Yield(ts[|ts| - 1])
  }

  /** A parse tree that breaks off at its right edge, where a leaf is expected next.
      `done` holds the finished trees to the left of the edge. */
  datatype Edge =
    | Here
    | InItems(done: seq<Tree>, rest: Edge)
    | InPresent(rest: Edge)
    | InPicked(index: nat, rest: Edge)
    | InRepeated(done: seq<Tree>, rest: Edge)

  /** Matcher `m` can be expanded along `e` so that the next thing needed is a leaf of kind `kind`. */
  ghost predicate Expects(x: Input, m: Id, e: Edge, kind: LeafKind)
    decreases e
  {
    m < |x.g| &&
    match x.g[m]
    case Leaf(k) => e.Here? && k == kind
    case List(cs) =>
      && e.InItems? && |e.done| < |cs|
      && (forall i :: 0 <= i < |e.done| ==> Derives(x, cs[i], e.done[i]))
      && Expects(x, cs[|e.done|], e.rest, kind)
    case Optional(c) => e.InPresent? && Expects(x, c, e.rest, kind)
    case Choice(cs) => e.InPicked? && e.index < |cs| && Expects(x, cs[e.index], e.rest, kind)
    case Repeat(c) =>
      && e.InRepeated?
      && (forall i :: 0 <= i < |e.done| ==> Derives(x, c, e.done[i]))
      && Expects(x, c, e.rest, kind)
  }

  /** The tokens to the left of the edge. */
  function EdgeYield(e: Edge): seq<string> {
    match e
    case Here => []
    case InItems(done, rest) => Yields(done) + EdgeYield(rest)
    case InPresent(rest) => EdgeYield(rest)
    case InPicked(_, rest) => EdgeYield(rest)
    case InRepeated(done, rest) => Yields(done) + EdgeYield(rest)
  }

  lemma YieldsSnoc(ts: seq<Tree>, t: Tree)
    ensures Yields(ts + [t]) == Yields(ts) + Yield(t)
  {
    assert (ts + [t])[..|ts|] == ts;
  }

  lemma {:induction false} YieldsConcat(ts: seq<Tree>, us: seq<Tree>)
    ensures Yields(ts + us) == Yields(ts) + Yields(us)
    decreases |us|
  {
    if us == [] {
      assert ts + us == ts;
    } else {
      var n := |us| - 1;
      assert ts + us == (ts + us[..n]) + [us[n]] && us == us[..n] + [us[n]];
      YieldsSnoc(ts + us[..n], us[n]);
      YieldsConcat(ts, us[..n]);
      YieldsSnoc(us[..n], us[n]);
    }
  }

  lemma YieldsCons(t: Tree, ts: seq<Tree>)
    ensures Yields([t] + ts) == Yield(t) + Yields(ts)
  {
    YieldsConcat([t], ts);
    YieldsSnoc([], t);
    assert [] + [t] == [t];
  }

  /** Every matcher of the graph derives something: `some[m]` is a tree for matcher m. */
  ghost predicate Productive(x: Input, some: seq<Tree>)
  {
    |some| == |x.g| && forall m :: 0 <= m < |x.g| ==> Derives(x, m, some[m])
  }

  lemma YieldsThrough(done: seq<Tree>, next: Tree, tail: seq<Tree>, w: seq<string>)
    requires w <= Yield(next)
    ensures Yields(done) + w <= Yields(done + [next] + tail)
  {
    YieldsSnoc(done, next);
    YieldsConcat(done + [next], tail);
  }

  /** The children of a list to the right of position |done|, each replaced by some tree. */
  ghost function Filler(cs: seq<Id>, from: nat, some: seq<Tree>): (ts: seq<Tree>)
    requires from <= |cs| && forall i :: 0 <= i < |cs| ==> cs[i] < |some|
  {
    seq(|cs| - from, i requires 0 <= i < |cs| - from => some[cs[from + i]])
  }

  lemma CompleteItems(x: Input, m: Id, cs: seq<Id>, done: seq<Tree>, next: Tree, some: seq<Tree>)
    requires x.Valid() && Productive(x, some)
    requires m < |x.g| && x.g[m] == List(cs) && RefersBelow(x.g[m], |x.g|) && |done| < |cs|
    requires forall i :: 0 <= i < |done| ==> Derives(x, cs[i], done[i])
    requires Derives(x, cs[|done|], next)
    ensures Derives(x, m, Items(done + [next] + Filler(cs, |done| + 1, some)))
  {
    var kids := done + [next] + Filler(cs, |done| + 1, some);
    forall i | 0 <= i < |cs| ensures Derives(x, cs[i], kids[i]) {
      if i < |done| {
        assert kids[i] == done[i];
      } else if i == |done| {
        assert kids[i] == next;
      } else {
        assert kids[i] == some[cs[i]];
      }
    }
  }

  lemma EdgeThrough(done: seq<Tree>, rest: Edge, next: Tree, tail: seq<Tree>, token: string)
    requires EdgeYield(rest) + [token] <= Yield(next)
    ensures Yields(done) + EdgeYield(rest) + [token] <= Yields(done + [next] + tail)
  {
    assert Yields(done) + EdgeYield(rest) + [token] == Yields(done) + (EdgeYield(rest) + [token]);
    YieldsThrough(done, next, tail, EdgeYield(rest) + [token]);
  }

  lemma RepeatsOne(x: Input, c: Id, done: seq<Tree>, next: Tree)
    requires Derives(x, c, next) && forall i :: 0 <= i < |done| ==> Derives(x, c, done[i])
    ensures forall i :: 0 <= i < |done + [next]| ==> Derives(x, c, (done + [next])[i])
  {
  }

  /** An edge can be completed to a whole tree that continues with any token the expected leaf accepts. */
  lemma {:induction false} Complete(x: Input, m: Id, e: Edge, kind: LeafKind, token: string, some: seq<Tree>)
      returns (t: Tree)
    requires x.Valid() && Productive(x, some)
    requires Expects(x, m, e, kind) && x.accepts(kind, token)
    ensures Derives(x, m, t) && EdgeYield(e) + [token] <= Yield(t)
    decreases e
  {
    hide Yields;
    assert RefersBelow(x.g[m], |x.g|);
    match x.g[m]
    case Leaf(_) =>
      t := Token(token);
    case List(cs) =>
      var r := Complete(x, cs[|e.done|], e.rest, kind, token, some);
      t := Items(e.done + [r] + Filler(cs, |e.done| + 1, some));
      CompleteItems(x, m, cs, e.done, r, some);
      EdgeThrough(e.done, e.rest, r, Filler(cs, |e.done| + 1, some), token);
    case Optional(c) =>
      var r := Complete(x, c, e.rest, kind, token, some);
      t := Present(r);
    case Choice(cs) =>
      var r := Complete(x, cs[e.index], e.rest, kind, token, some);
      t := Picked(e.index, r);
    case Repeat(c) =>
      var r := Complete(x, c, e.rest, kind, token, some);
      t := Repeated(e.done + [r]);
      RepeatsOne(x, c, e.done, r);
      EdgeThrough(e.done, e.rest, r, [], token);
      assert e.done + [r] + [] == e.done + [r];
  }
}
