/** Which proposals are made: nothing that has to be visited is left out. */
module Suggestions {
  import opened MatcherGraph
  import opened Derivations
  import opened MatchRun
  import opened MatchSoundness

  // ---------- what is visited is closed ----------

  /** The elements of a list are visited in order, `seen[k]` being what was visited before the one at `k`: up to the
      first that is mandatory on this visit. */
  ghost predicate Walks(g: Graph, cs: seq<Id>, seen: seq<set<Id>>, all: set<Id>)
    requires Closed(g) && forall k :: 0 <= k < |cs| ==> cs[k] < |g|
  {
    && |seen| <= |cs|
    && (forall k :: 0 <= k < |seen| ==> cs[k] in all)
    && (forall k :: 0 <= k < |seen| - 1 ==>
      !Suggest(g, cs[k], seen[k]).mandatory && seen[k + 1] == Suggest(g, cs[k], seen[k]).added)
    && (|seen| < |cs| ==> seen != [] && Suggest(g, cs[|seen| - 1], seen[|seen| - 1]).mandatory)
  }

  /** With matcher `v`, all that it asks for has been visited, or proposed. */
  ghost predicate IsVisited(g: Graph, v: Id, all: set<Id>, pushed: seq<LeafKind>)
    requires Closed(g) && v < |g| && RefersBelow(g[v], |g|)
  {
    match g[v]
    case Leaf(kind) => Proposes(kind) ==> kind in pushed
    case List(cs) => exists seen :: Walks(g, cs, seen, all)
    case Optional(c) => c in all
    case Choice(cs) => forall k :: 0 <= k < |cs| ==> cs[k] in all
    case Repeat(c) => c in all
  }

  ghost predicate AllVisited(g: Graph, added: set<Id>, p: Proposal)
    requires Closed(g)
  {
    forall v :: v in p.added && v !in added ==>
      v < |g| && RefersBelow(g[v], |g|) && IsVisited(g, v, p.added, p.pushed)
  }

  /** Later visits keep that. */
  lemma VisitedLater(g: Graph, added: set<Id>, p: Proposal, q: Proposal)
    requires Closed(g) && AllVisited(g, added, p) && p.added <= q.added
    requires forall kind :: kind in p.pushed ==> kind in q.pushed
    ensures forall v :: v in p.added && v !in added ==>
      v < |g| && RefersBelow(g[v], |g|) && IsVisited(g, v, q.added, q.pushed)
  {
    hide Suggest;
    forall v | v in p.added && v !in added
      ensures v < |g| && RefersBelow(g[v], |g|) && IsVisited(g, v, q.added, q.pushed)
    {
      assert IsVisited(g, v, p.added, p.pushed);
      if g[v].List? {
        var seen :| Walks(g, g[v].children, seen, p.added);
        assert Walks(g, g[v].children, seen, q.added);
      }
    }
  }

  /** A visit leaves nothing out: of each matcher newly visited, the proposal is made if it is a leaf that proposes,
      and else all alternatives, the element, or the elements up to the first mandatory one have been visited. */
  lemma {:induction false} VisitsAll(g: Graph, m: Id, added: set<Id>)
    requires Closed(g) && m < |g|
    ensures m in Suggest(g, m, added).added && AllVisited(g, added, Suggest(g, m, added))
    decreases Ids(|g|) - added, 0, 0
  {
    if m !in added {
      hide AllVisited, SuggestInOrder, SuggestEach;
      var seen, p := added + {m}, Suggest(g, m, added);
      assert RefersBelow(g[m], |g|);
      match g[m]
      case Leaf(kind) =>
      case List(cs) =>
        var sets := VisitsInOrder(g, cs, seen);
      case Optional(c) => VisitsAll(g, c, seen);
      case Choice(cs) => VisitsEach(g, cs, seen);
      case Repeat(c) => VisitsAll(g, c, seen);
      VisitsItself(g, m, added, p);
    } else {
      assert Suggest(g, m, added).added == added;
    }
  }

  /** With the matcher itself and what was visited from there. */
  lemma VisitsItself(g: Graph, m: Id, added: set<Id>, p: Proposal)
    requires Closed(g) && m < |g| && RefersBelow(g[m], |g|) && IsVisited(g, m, p.added, p.pushed)
    requires p.added == added + {m} ||
      exists q: Proposal :: q.added == p.added && q.pushed == p.pushed && AllVisited(g, added + {m}, q)
    ensures AllVisited(g, added, p)
  {
  }

  lemma {:induction false} VisitsInOrder(g: Graph, cs: seq<Id>, added: set<Id>) returns (seen: seq<set<Id>>)
    requires Closed(g) && forall k :: 0 <= k < |cs| ==> cs[k] < |g|
    ensures AllVisited(g, added, SuggestInOrder(g, cs, added)) && Walks(g, cs, seen, SuggestInOrder(g, cs, added).added)
    ensures seen != [] ==> seen[0] == added
    decreases Ids(|g|) - added, 1, |cs|
  {
    hide Suggest;
    seen := [];
    if cs != [] {
      var p := Suggest(g, cs[0], added);
      VisitsAll(g, cs[0], added);
      seen := [added];
      if !p.mandatory {
        var rest := VisitsInOrder(g, cs[1..], p.added);
        var q := SuggestInOrder(g, cs[1..], p.added);
        seen := [added] + rest;
        VisitedLater(g, added, p, SuggestInOrder(g, cs, added));
        VisitedLater(g, p.added, q, SuggestInOrder(g, cs, added));
        WalksOn(g, cs, added, rest, q.added);
      }
    }
  }

  lemma WalksOn(g: Graph, cs: seq<Id>, added: set<Id>, rest: seq<set<Id>>, all: set<Id>)
    requires Closed(g) && (forall k :: 0 <= k < |cs| ==> cs[k] < |g|) && cs != [] && cs[0] in all
    requires !Suggest(g, cs[0], added).mandatory && Walks(g, cs[1..], rest, all)
    requires rest != [] ==> rest[0] == Suggest(g, cs[0], added).added
    ensures Walks(g, cs, [added] + rest, all)
  {
    hide Suggest;
    var seen := [added] + rest;
    forall k | 0 <= k < |seen| ensures cs[k] in all {
      assert k > 0 ==> cs[k] == cs[1..][k - 1];
    }
    forall k | 0 <= k < |seen| - 1
      ensures !Suggest(g, cs[k], seen[k]).mandatory && seen[k + 1] == Suggest(g, cs[k], seen[k]).added
    {
      assert k > 0 ==> cs[k] == cs[1..][k - 1] && seen[k] == rest[k - 1] && seen[k + 1] == rest[k];
    }
    if rest != [] {
      assert cs[|seen| - 1] == cs[1..][|rest| - 1] && seen[|seen| - 1] == rest[|rest| - 1];
    }
  }

  lemma {:induction false} VisitsEach(g: Graph, cs: seq<Id>, added: set<Id>)
    requires Closed(g) && forall k :: 0 <= k < |cs| ==> cs[k] < |g|
    ensures AllVisited(g, added, SuggestEach(g, cs, added))
    ensures forall k :: 0 <= k < |cs| ==> cs[k] in SuggestEach(g, cs, added).added
    decreases Ids(|g|) - added, 1, |cs|
  {
    hide Suggest;
    if cs != [] {
      var p := Suggest(g, cs[0], added);
      VisitsAll(g, cs[0], added);
      VisitsEach(g, cs[1..], p.added);
      VisitedLater(g, added, p, SuggestEach(g, cs, added));
      VisitedLater(g, p.added, SuggestEach(g, cs[1..], p.added), SuggestEach(g, cs, added));
      forall k | 0 <= k < |cs| ensures cs[k] in SuggestEach(g, cs, added).added {
        assert k > 0 ==> cs[k] == cs[1..][k - 1];
      }
    }
  }

  // ---------- where no matcher is met twice ----------

  /** The matchers met when nothing keeps track of which have been visited. */
  datatype Tour = Tour(id: Id, kids: seq<Tour>)

  /** The tour may be skipped: it is an optional, or a list of nothing else. */
  predicate MayBeSkipped(g: Graph, t: Tour)
    decreases t
  {
    t.id < |g| &&
    match g[t.id]
    case Optional(_) => true
    case List(cs) => |t.kids| == |cs| && forall k :: 0 <= k < |cs| ==> MayBeSkipped(g, t.kids[k])
    case _ => false
  }

  predicate IsTour(g: Graph, t: Tour)
    decreases t
  {
    t.id < |g| &&
    match g[t.id]
    case Leaf(_) => t.kids == []
    case List(cs) => IsWalk(g, cs, t.kids)
    case Optional(c) => |t.kids| == 1 && t.kids[0].id == c && IsTour(g, t.kids[0])
    case Choice(cs) =>
      |t.kids| == |cs| && forall k :: 0 <= k < |cs| ==> t.kids[k].id == cs[k] && IsTour(g, t.kids[k])
    case Repeat(c) => |t.kids| == 1 && t.kids[0].id == c && IsTour(g, t.kids[0])
  }

  /** The elements of a list up to the first that may not be skipped. */
  predicate IsWalk(g: Graph, cs: seq<Id>, kids: seq<Tour>)
    decreases kids
  {
    if kids == [] then cs == []
    else
      && cs != [] && kids[0].id == cs[0] && IsTour(g, kids[0])
      && if MayBeSkipped(g, kids[0]) then IsWalk(g, cs[1..], kids[1..]) else |kids| == 1
  }

  function Met(t: Tour): set<Id>
    decreases t
  {
    {t.id} + MetBy(t.kids)
  }

  function MetBy(ts: seq<Tour>): set<Id>
    decreases ts
  {
    if ts == [] then {} else Met(ts[0]) + MetBy(ts[1..])
  }

  /** No matcher is met twice. */
  predicate MeetsOnce(t: Tour)
    decreases t
  {
    t.id !in MetBy(t.kids) && AllMeetOnce(t.kids)
  }

  predicate AllMeetOnce(ts: seq<Tour>)
    decreases ts
  {
    ts == [] || (MeetsOnce(ts[0]) && Met(ts[0]) !! MetBy(ts[1..]) && AllMeetOnce(ts[1..]))
  }

  /** The proposals of the leaves, in order. */
  function Leaves(g: Graph, t: Tour): seq<LeafKind>
    requires IsTour(g, t)
    decreases t
  {
    match g[t.id]
    case Leaf(kind) => if Proposes(kind) then [kind] else []
    case List(cs) => LeavesOf(g, t.kids)
    case Optional(_) => LeavesOf(g, t.kids)
    case Choice(_) => LeavesOf(g, t.kids)
    case Repeat(_) => LeavesOf(g, t.kids)
  }

  function LeavesOf(g: Graph, ts: seq<Tour>): seq<LeafKind>
    decreases ts
  {
    if ts == [] then [] else (if IsTour(g, ts[0]) then Leaves(g, ts[0]) else []) + LeavesOf(g, ts[1..])
  }

  /** If no matcher is met twice, keeping track of visits changes nothing: all leaves are proposed, in order. */
  lemma {:induction false} SuggestsAll(g: Graph, t: Tour, added: set<Id>)
    requires Closed(g) && IsTour(g, t) && MeetsOnce(t) && Met(t) !! added
    ensures Suggest(g, t.id, added) == Proposal(!MayBeSkipped(g, t), added + Met(t), Leaves(g, t))
    decreases t, 0
  {
    hide SuggestInOrder, SuggestEach;
    var seen := added + {t.id};
    assert RefersBelow(g[t.id], |g|);
    assert seen + MetBy(t.kids) == added + Met(t);
    match g[t.id]
    case Leaf(_) =>
    case List(cs) => SuggestsInOrder(g, cs, t.kids, seen);
    case Optional(c) => SuggestsOne(g, t.kids, seen);
    case Choice(cs) => SuggestsEach(g, cs, t.kids, seen);
    case Repeat(c) => SuggestsOne(g, t.kids, seen);
  }

  lemma {:induction false} SuggestsOne(g: Graph, ts: seq<Tour>, added: set<Id>)
    requires Closed(g) && |ts| == 1 && IsTour(g, ts[0]) && AllMeetOnce(ts) && MetBy(ts) !! added
    ensures var p := Suggest(g, ts[0].id, added); p.added == added + MetBy(ts) && p.pushed == LeavesOf(g, ts)
    decreases ts, 1
  {
    hide Suggest;
    assert ts[0] in ts && ts[1..] == [];
    SuggestsAll(g, ts[0], added);
  }

  predicate AllMayBeSkipped(g: Graph, ts: seq<Tour>) {
    forall k :: 0 <= k < |ts| ==> MayBeSkipped(g, ts[k])
  }

  lemma {:induction false} SuggestsInOrder(g: Graph, cs: seq<Id>, ts: seq<Tour>, added: set<Id>)
    requires Closed(g) && (forall k :: 0 <= k < |cs| ==> cs[k] < |g|)
    requires IsWalk(g, cs, ts) && AllMeetOnce(ts) && MetBy(ts) !! added
    ensures SuggestInOrder(g, cs, added) ==
      Proposal(!(|ts| == |cs| && AllMayBeSkipped(g, ts)), added + MetBy(ts), LeavesOf(g, ts))
    decreases ts, 1
  {
    hide Suggest, MayBeSkipped, IsTour;
    if ts != [] {
      assert ts[0] in ts;
      SuggestsAll(g, ts[0], added);
      if MayBeSkipped(g, ts[0]) {
        SuggestsInOrder(g, cs[1..], ts[1..], added + Met(ts[0]));
        assert AllMayBeSkipped(g, ts) <==> AllMayBeSkipped(g, ts[1..]) by {
          assert forall k :: 0 < k < |ts| ==> ts[k] == ts[1..][k - 1];
        }
        assert added + Met(ts[0]) + MetBy(ts[1..]) == added + MetBy(ts);
      } else {
        assert ts[1..] == [];
        assert added + Met(ts[0]) == added + MetBy(ts);
      }
    }
  }

  lemma {:induction false} SuggestsEach(g: Graph, cs: seq<Id>, ts: seq<Tour>, added: set<Id>)
    requires Closed(g) && (forall k :: 0 <= k < |cs| ==> cs[k] < |g|) && |ts| == |cs|
    requires forall k :: 0 <= k < |cs| ==> ts[k].id == cs[k] && IsTour(g, ts[k])
    requires AllMeetOnce(ts) && MetBy(ts) !! added
    ensures SuggestEach(g, cs, added) == Proposal(true, added + MetBy(ts), LeavesOf(g, ts))
    decreases ts, 1
  {
    hide Suggest, IsTour;
    if ts != [] {
      assert ts[0] in ts;
      SuggestsAll(g, ts[0], added);
      forall k | 0 <= k < |cs| - 1 ensures ts[1..][k].id == cs[1..][k] && IsTour(g, ts[1..][k]) {
        assert ts[1..][k] == ts[k + 1];
      }
      SuggestsEach(g, cs[1..], ts[1..], added + Met(ts[0]));
      assert added + Met(ts[0]) + MetBy(ts[1..]) == added + MetBy(ts);
    }
  }

  // ---------- then exactly what can come first is proposed ----------

  /** The tree of something skipped. */
  predicate IsBlank(t: Tree)
    decreases t
  {
    t.Absent? || (t.Items? && forall k :: 0 <= k < |t.kids| ==> IsBlank(t.kids[k]))
  }

  /** Only optionals, and lists of them, are passed over on the way to the edge. */
  predicate SkipsOnly(e: Edge) {
    match e
    case Here => true
    case InItems(done, rest) => (forall k :: 0 <= k < |done| ==> IsBlank(done[k])) && SkipsOnly(rest)
    case InPresent(rest) => SkipsOnly(rest)
    case InPicked(_, rest) => SkipsOnly(rest)
    case InRepeated(done, rest) => done == [] && SkipsOnly(rest)
  }

  lemma {:induction false} SkippedIsBlank(x: Input, t: Tour) returns (b: Tree)
    requires x.Valid() && IsTour(x.g, t) && MayBeSkipped(x.g, t)
    ensures Derives(x, t.id, b) && IsBlank(b)
    decreases t
  {
    match x.g[t.id]
    case Optional(_) => b := Absent;
    case List(cs) =>
      var kids := WalkIsBlank(x, cs, t.kids);
      b := Items(kids);
  }

  lemma {:induction false} WalkIsBlank(x: Input, cs: seq<Id>, ts: seq<Tour>) returns (kids: seq<Tree>)
    requires x.Valid() && IsWalk(x.g, cs, ts) && |ts| == |cs| && AllMayBeSkipped(x.g, ts)
    ensures DeriveAll(x, cs, kids) && forall k :: 0 <= k < |kids| ==> IsBlank(kids[k])
    decreases ts
  {
    hide MayBeSkipped, IsTour, Derives, IsBlank;
    kids := [];
    if ts != [] {
      assert ts[0] in ts;
      var b := SkippedIsBlank(x, ts[0]);
      assert forall k :: 0 <= k < |ts| - 1 ==> ts[1..][k] == ts[k + 1];
      var rest := WalkIsBlank(x, cs[1..], ts[1..]);
      DeriveAllCons(x, cs, b, rest);
      kids := [b] + rest;
    }
  }

  lemma {:induction false} LeafHasEdge(x: Input, t: Tour, kind: LeafKind) returns (e: Edge)
    requires x.Valid() && IsTour(x.g, t) && kind in Leaves(x.g, t)
    ensures Expects(x, t.id, e, kind) && SkipsOnly(e) && Proposes(kind)
    decreases t, 0
  {
    hide LeavesOf, IsBlank;
    match x.g[t.id]
    case Leaf(_) => e := Here;
    case List(cs) =>
      var done, rest := WalkHasEdge(x, cs, t.kids, kind);
      assert cs[..|done|] <= cs;
      e := InItems(done, rest);
    case Optional(c) =>
      var k, rest := KidHasEdge(x, t.kids, kind);
      e := InPresent(rest);
    case Choice(cs) =>
      var k, rest := KidHasEdge(x, t.kids, kind);
      e := InPicked(k, rest);
    case Repeat(c) =>
      var k, rest := KidHasEdge(x, t.kids, kind);
      e := InRepeated([], rest);
  }

  lemma {:induction false} KidHasEdge(x: Input, ts: seq<Tour>, kind: LeafKind) returns (k: nat, e: Edge)
    requires x.Valid() && (forall k :: 0 <= k < |ts| ==> IsTour(x.g, ts[k])) && kind in LeavesOf(x.g, ts)
    ensures k < |ts| && Expects(x, ts[k].id, e, kind) && SkipsOnly(e) && Proposes(kind)
    decreases ts, 1
  {
    hide IsTour, Leaves, Expects, SkipsOnly;
    assert ts[0] in ts && IsTour(x.g, ts[0]);
    if kind in Leaves(x.g, ts[0]) {
      e := LeafHasEdge(x, ts[0], kind);
      k := 0;
    } else {
      assert forall k :: 0 <= k < |ts| - 1 ==> ts[1..][k] == ts[k + 1];
      var k';
      k', e := KidHasEdge(x, ts[1..], kind);
      k := k' + 1;
    }
  }

  lemma {:induction false} WalkHasEdge(x: Input, cs: seq<Id>, ts: seq<Tour>, kind: LeafKind)
    returns (done: seq<Tree>, e: Edge)
    requires x.Valid() && IsWalk(x.g, cs, ts) && kind in LeavesOf(x.g, ts)
    ensures ExpectsWithin(x, cs, done, e, kind) && SkipsOnly(e) && Proposes(kind)
    ensures forall k :: 0 <= k < |done| ==> IsBlank(done[k])
    decreases ts, 1
  {
    hide IsTour, Leaves, Expects, SkipsOnly, MayBeSkipped, IsBlank, Derives;
    assert ts[0] in ts;
    if kind in Leaves(x.g, ts[0]) {
      e := LeafHasEdge(x, ts[0], kind);
      done := [];
    } else {
      var b := SkippedIsBlank(x, ts[0]);
      var rest;
      rest, e := WalkHasEdge(x, cs[1..], ts[1..], kind);
      ExpectsWithinCons(x, cs, b, rest, e, kind);
      done := [b] + rest;
    }
  }

  lemma {:induction false} BlankIsSkipped(x: Input, t: Tour, b: Tree)
    requires x.Valid() && IsTour(x.g, t) && Derives(x, t.id, b) && IsBlank(b)
    ensures MayBeSkipped(x.g, t)
    decreases t, 0
  {
    match x.g[t.id]
    case Optional(_) =>
    case List(cs) => BlankWalkIsSkipped(x, cs, t.kids, b.kids);
    case _ =>
  }

  lemma {:induction false} BlankWalkIsSkipped(x: Input, cs: seq<Id>, ts: seq<Tour>, kids: seq<Tree>)
    requires x.Valid() && IsWalk(x.g, cs, ts) && |kids| <= |cs|
    requires forall k :: 0 <= k < |kids| ==> Derives(x, cs[k], kids[k]) && IsBlank(kids[k])
    ensures |kids| <= |ts| <= |cs| && (forall k :: 0 <= k < |kids| ==> MayBeSkipped(x.g, ts[k]))
    ensures |kids| < |cs| ==> |kids| < |ts|
    decreases ts, 1
  {
    hide IsTour, MayBeSkipped, Derives, IsBlank;
    if ts != [] {
      assert ts[0] in ts;
      if kids != [] {
        BlankIsSkipped(x, ts[0], kids[0]);
        forall k | 0 <= k < |kids| - 1 ensures Derives(x, cs[1..][k], kids[1..][k]) && IsBlank(kids[1..][k]) {
          assert kids[1..][k] == kids[k + 1];
        }
        BlankWalkIsSkipped(x, cs[1..], ts[1..], kids[1..]);
        forall k | 0 <= k < |kids| ensures MayBeSkipped(x.g, ts[k]) {
          assert k > 0 ==> ts[k] == ts[1..][k - 1];
        }
      } else if |ts| > 1 {
        BlankWalkIsSkipped(x, cs[1..], ts[1..], []);
      }
    }
  }

  lemma {:induction false} WalkKid(g: Graph, cs: seq<Id>, ts: seq<Tour>, k: nat)
    requires IsWalk(g, cs, ts) && k < |ts|
    ensures k < |cs| && ts[k].id == cs[k] && IsTour(g, ts[k])
    decreases |ts|
  {
    if k > 0 {
      WalkKid(g, cs[1..], ts[1..], k - 1);
    }
  }

  lemma {:induction false} KidLeaves(g: Graph, ts: seq<Tour>, k: nat)
    requires k < |ts| && IsTour(g, ts[k])
    ensures forall kind :: kind in Leaves(g, ts[k]) ==> kind in LeavesOf(g, ts)
    decreases |ts|
  {
    hide IsTour, Leaves;
    if k > 0 {
      KidLeaves(g, ts[1..], k - 1);
    }
  }

  lemma {:induction false} EdgeHasLeaf(x: Input, t: Tour, e: Edge, kind: LeafKind)
    requires x.Valid() && IsTour(x.g, t) && Expects(x, t.id, e, kind) && SkipsOnly(e) && Proposes(kind)
    ensures kind in Leaves(x.g, t)
    decreases e
  {
    hide LeavesOf, IsBlank, Derives;
    match x.g[t.id]
    case Leaf(_) =>
    case List(cs) =>
      BlankWalkIsSkipped(x, cs, t.kids, e.done);
      WalkKid(x.g, cs, t.kids, |e.done|);
      EdgeHasLeaf(x, t.kids[|e.done|], e.rest, kind);
      KidLeaves(x.g, t.kids, |e.done|);
    case Optional(c) =>
      EdgeHasLeaf(x, t.kids[0], e.rest, kind);
      KidLeaves(x.g, t.kids, 0);
    case Choice(cs) =>
      EdgeHasLeaf(x, t.kids[e.index], e.rest, kind);
      KidLeaves(x.g, t.kids, e.index);
    case Repeat(c) =>
      EdgeHasLeaf(x, t.kids[0], e.rest, kind);
      KidLeaves(x.g, t.kids, 0);
  }

  /** If no matcher is met twice, a leaf is proposed exactly if it proposes at all and can come first, with nothing
      but optionals and lists of them passed over. */
  lemma ProposedExactly(x: Input, t: Tour, kind: LeafKind)
    requires x.Valid() && IsTour(x.g, t) && MeetsOnce(t)
    ensures kind in Suggest(x.g, t.id, {}).pushed <==>
      Proposes(kind) && exists e :: Expects(x, t.id, e, kind) && SkipsOnly(e)
  {
    hide Suggest, IsTour, MeetsOnce, Expects, SkipsOnly, Leaves;
    SuggestsAll(x.g, t, {});
    if kind in Leaves(x.g, t) {
      var e := LeafHasEdge(x, t, kind);
    }
    if e :| Proposes(kind) && Expects(x, t.id, e, kind) && SkipsOnly(e) {
      EdgeHasLeaf(x, t, e, kind);
    }
  }
}
