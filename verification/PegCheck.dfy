/** The statement check: every statement of a script must be matched, to its last token, by the root matcher. */
module PegCheck {
  import opened MatcherGraph
  import opened Derivations
  import opened MatchRun
  import opened MatchSoundness
  import opened MatchTermination
  import opened MatchEnds
  import opened MatchProofs
  import opened Matcher

  datatype Verdict = Accepted | Rejected(statement: nat, tokenIndex: nat)

  ghost predicate Derivable(g: Graph, accepts: (LeafKind, string) -> bool, root: Id, tokens: seq<string>) {
    exists t :: Derives(Input(g, accepts, tokens), root, t) && Yield(t) == tokens
  }

  /** The run of the root matcher is finite and ends in outcome `r`. */
  ghost predicate RunsTo(x: Input, root: Id, r: Outcome) {
    CanStart(x, root, 0) && r.Done? && exists fuel: nat :: Run(x, root, 0, {}, fuel) == r
  }

  /** A statement passes when it is empty or the root matches all of its tokens. */
  ghost predicate Passes(g: Graph, accepts: (LeafKind, string) -> bool, root: Id, tokens: seq<string>) {
    tokens == [] ||
    exists r :: RunsTo(Input(g, accepts, tokens), root, r) && r.success && r.index == |tokens|
  }

  lemma OneOutcome(x: Input, root: Id, r: Outcome, s: Outcome)
    requires RunsTo(x, root, r) && RunsTo(x, root, s)
    ensures r == s
  {
    var f: nat :| Run(x, root, 0, {}, f) == r;
    var f': nat :| Run(x, root, 0, {}, f') == s;
    if f <= f' {
      MoreFuel(x, root, 0, {}, f, f');
    } else {
      MoreFuel(x, root, 0, {}, f', f);
    }
  }

  /** A statement passes exactly if there is a proof that the root matches all of its tokens. */
  lemma PassesExactly(g: Graph, accepts: (LeafKind, string) -> bool, root: Id, tokens: seq<string>)
    requires Closed(g) && root < |g| && tokens != []
    ensures Passes(g, accepts, root, tokens) <==>
      exists p :: Proves(Input(g, accepts, tokens), root, 0, {}, p) && p.claim.ok && p.claim.index == |tokens|
  {
    hide Run, Proves;
    var x := Input(g, accepts, tokens);
    if r :| RunsTo(x, root, r) && r.success && r.index == |tokens| {
      var fuel: nat :| Run(x, root, 0, {}, fuel) == r;
      var p := RunProves(x, root, 0, {}, fuel);
      assert Proves(x, root, 0, {}, p) && p.claim.ok && p.claim.index == |tokens|;
    }
    if p :| Proves(x, root, 0, {}, p) && p.claim.ok && p.claim.index == |tokens| {
      var fuel := ProofRuns(x, root, 0, {}, p);
      var r := Run(x, root, 0, {}, fuel);
      assert RunsTo(x, root, r) && r.success && r.index == |tokens|;
    }
  }

  lemma PassingIsDerivable(g: Graph, accepts: (LeafKind, string) -> bool, root: Id, tokens: seq<string>)
    requires tokens != [] && Passes(g, accepts, root, tokens)
    ensures Derivable(g, accepts, root, tokens)
  {
    var x := Input(g, accepts, tokens);
    var r :| RunsTo(x, root, r) && r.success && r.index == |tokens|;
    var fuel: nat :| Run(x, root, 0, {}, fuel) == r;
    AcceptanceIsSound(x, root, fuel);
  }

  // ---------- where a failed match stands ----------

  /** The root is a list, and the elements before its last ones match all tokens. */
  ghost predicate BreaksOff(x: Input, root: Id) {
    CanStart(x, root, 0) && x.g[root].List? && exists k :: MatchedBefore(x, x.g[root].children, 0, 0, {}, k)
  }

  /** The elements before the one at `k` match all tokens from `i` on. */
  ghost predicate MatchedBefore(x: Input, cs: seq<Id>, start: nat, i: nat, added: set<Id>, k: int) {
    && x.Valid() && start <= i <= |x.tokens| && (forall j :: 0 <= j < |cs| ==> cs[j] < |x.g|) && 0 <= k < |cs|
    && exists fuel: nat :: EndsAllRead(x, RunItems(x, cs[..k], start, i, added, fuel))
  }

  ghost predicate EndsAllRead(x: Input, r: Outcome) {
    r.Done? && r.success && r.index == |x.tokens|
  }

  lemma SameRun(x: Input, m: Id, i: nat, added: set<Id>, f: nat, f': nat)
    requires CanStart(x, m, i) && Run(x, m, i, added, f).Done? && Run(x, m, i, added, f').Done?
    ensures Run(x, m, i, added, f) == Run(x, m, i, added, f')
  {
    if f <= f' {
      MoreFuel(x, m, i, added, f, f');
    } else {
      MoreFuel(x, m, i, added, f', f);
    }
  }

  /** A list fails at the end of the tokens only if the elements before some other match all of them. */
  lemma {:induction false} EndWasReached(x: Input, cs: seq<Id>, start: nat, i: nat, added: set<Id>, fuel: nat)
    returns (k: nat)
    requires x.Valid() && start <= i <= |x.tokens| && start < |x.tokens| && forall j :: 0 <= j < |cs| ==> cs[j] < |x.g|
    requires var r := RunItems(x, cs, start, i, added, fuel); r.Done? && !r.success && r.index == |x.tokens|
    ensures k < |cs| && EndsAllRead(x, RunItems(x, cs[..k], start, i, added, fuel))
    decreases |cs|
  {
    hide Run;
    k := 0;
    if i < |x.tokens| {
      var r := Run(x, cs[0], i, added, fuel);
      var rest := EndWasReached(x, cs[1..], start, r.index, r.added, fuel);
      k := rest + 1;
      assert cs[..k][1..] == cs[1..][..rest];
    }
  }

  lemma {:induction false} EndIsReached(x: Input, cs: seq<Id>, start: nat, i: nat, added: set<Id>, fuel: nat, k: nat,
                                        f: nat)
    requires x.Valid() && start <= i <= |x.tokens| && start < |x.tokens| && forall j :: 0 <= j < |cs| ==> cs[j] < |x.g|
    requires RunItems(x, cs, start, i, added, fuel).Done? && !RunItems(x, cs, start, i, added, fuel).success
    requires k < |cs| && EndsAllRead(x, RunItems(x, cs[..k], start, i, added, f))
    ensures RunItems(x, cs, start, i, added, fuel).index == |x.tokens|
    decreases |cs|
  {
    hide Run;
    if i < |x.tokens| {
      SameRun(x, cs[0], i, added, fuel, f);
      var r := Run(x, cs[0], i, added, fuel);
      assert cs[..k][1..] == cs[1..][..k - 1];
      EndIsReached(x, cs[1..], start, r.index, r.added, fuel, k - 1, f);
    }
  }

  lemma {:induction false} FailedChoice(x: Input, cs: seq<Id>, i: nat, fuel: nat)
    requires x.Valid() && i < |x.tokens| && forall k :: 0 <= k < |cs| ==> cs[k] < |x.g|
    requires RunChoice(x, cs, i, fuel).Done? && !RunChoice(x, cs, i, fuel).success
    ensures RunChoice(x, cs, i, fuel).index == i
    decreases |cs|
  {
    hide Run;
    if cs != [] {
      FailedChoice(x, cs[1..], i, fuel);
    }
  }

  /** A failed match stands at the first token, or behind the last one just when the root breaks off. */
  lemma FailedIndex(x: Input, root: Id, r: Outcome)
    requires RunsTo(x, root, r) && !r.success && x.tokens != []
    ensures r.index == if BreaksOff(x, root) then |x.tokens| else 0
  {
    var fuel: nat :| Run(x, root, 0, {}, fuel) == r;
    assert RefersBelow(x.g[root], |x.g|);
    if x.g[root].List? {
      var cs := x.g[root].children;
      if r.index == |x.tokens| {
        var k := EndWasReached(x, cs, 0, 0, {}, fuel - 1);
        assert MatchedBefore(x, cs, 0, 0, {}, k);
      }
      if k :| MatchedBefore(x, cs, 0, 0, {}, k) {
        var f: nat :| EndsAllRead(x, RunItems(x, cs[..k], 0, 0, {}, f));
        EndIsReached(x, cs, 0, 0, {}, fuel - 1, k, f);
      }
    } else if x.g[root].Choice? {
      FailedChoice(x, x.g[root].options, 0, fuel - 1);
    }
  }

  const ROW_OF_TWO: Graph := [List([1, 2]), Leaf(Keyword("a")), Leaf(Keyword("b"))]

  /** A statement that ends too early is reported at the token behind its last one, which is not there. */
  lemma FailsBehindLast()
    ensures var x := Input(ROW_OF_TWO, (kind: LeafKind, token: string) => kind == Keyword(token), ["a"]);
      RunsTo(x, 0, Done(false, 1, {}, [Keyword("b")]))
  {
    var x := Input(ROW_OF_TWO, (kind: LeafKind, token: string) => kind == Keyword(token), ["a"]);
    assert Run(x, 1, 0, {}, 1) == Done(true, 1, {}, []);
    assert Suggest(x.g, 2, {}) == Proposal(true, {2}, [Keyword("b")]);
    assert SuggestInOrder(x.g, [2], {}) == Proposal(true, {2}, [Keyword("b")]);
    assert RunItems(x, [2], 0, 1, {}, 1) == Done(false, 1, {2}, [Keyword("b")]);
    assert [1, 2][1..] == [2];
    assert RunItems(x, [1, 2], 0, 0, {}, 1) == Done(false, 1, {2}, [Keyword("b")]);
    assert Run(x, 0, 0, {}, 2) == Done(false, 1, {}, [Keyword("b")]);
  }

  // ---------- the check ----------

  /** Matching ends on every statement that is looked at: those behind the first that does not pass are not. */
  ghost predicate ChecksEnd(g: Graph, accepts: (LeafKind, string) -> bool, root: Id, statements: seq<seq<string>>) {
    forall k :: 0 <= k < |statements| && statements[k] != [] && AllPass(g, accepts, root, statements[..k]) ==>
      Ends(Input(g, accepts, statements[k]), root, 0, {})
  }

  ghost predicate AllPass(g: Graph, accepts: (LeafKind, string) -> bool, root: Id, statements: seq<seq<string>>) {
    forall k :: 0 <= k < |statements| ==> Passes(g, accepts, root, statements[k])
  }

  lemma ProgressiveChecksEnd(g: Graph, accepts: (LeafKind, string) -> bool, root: Id, statements: seq<seq<string>>,
                             nullable: set<Id>, rank: seq<nat>)
    requires Progressive(g, nullable, rank) && root < |g|
    ensures ChecksEnd(g, accepts, root, statements)
  {
    ProgressiveEnds(g, nullable, rank);
    hide Progressive, Ends;
    assert forall tokens :: tokens != [] ==> CanStart(Input(g, accepts, tokens), root, 0);
  }

  /** Checks the statements in order and stops at the first that does not pass. It is reported with the position its
      match got to; when the match itself failed that is the first token or one past the last, wherever the fault
      is. */
  method CheckStatements(g: Graph, accepts: (LeafKind, string) -> bool, root: Id, statements: seq<seq<string>>)
    returns (v: Verdict)
    requires Closed(g) && root < |g| && ChecksEnd(g, accepts, root, statements)
    ensures v.Accepted? <==> AllPass(g, accepts, root, statements)
    ensures v.Accepted? ==>
      forall k :: 0 <= k < |statements| && statements[k] != [] ==> Derivable(g, accepts, root, statements[k])
    ensures v.Rejected? ==>
      && v.statement < |statements| && !Passes(g, accepts, root, statements[v.statement])
      && AllPass(g, accepts, root, statements[..v.statement])
      && var x := Input(g, accepts, statements[v.statement]);
      exists r :: RunsTo(x, root, r) && r.index == v.tokenIndex
                  && (!r.success ==> r.index == if BreaksOff(x, root) then |x.tokens| else 0)
  {
    hide Run, BreaksOff, Ends, Derivable, Closed;
    for k := 0 to |statements|
      invariant AllPass(g, accepts, root, statements[..k])
    {
      var tokens := statements[k];
      if tokens != [] {
        var x := Input(g, accepts, tokens);
        var suggestions := new SuggestionVector();
        var state := new MatchState(tokens, suggestions);
        ghost var fuel, r := EndsAt(x, root);
        var success := Match(x, root, state, fuel);
        if !success || state.tokenIndex < |tokens| {
          forall s | RunsTo(x, root, s) ensures s == r {
            OneOutcome(x, root, r, s);
          }
          if !success {
            FailedIndex(x, root, r);
          }
          return Rejected(k, state.tokenIndex);
        }
      }
    }
    assert statements[..|statements|] == statements;
    forall k | 0 <= k < |statements| && statements[k] != []
      ensures Derivable(g, accepts, root, statements[k])
    {
      PassingIsDerivable(g, accepts, root, statements[k]);
    }
    v := Accepted;
  }

  lemma EndsAt(x: Input, root: Id) returns (fuel: nat, r: Outcome)
    requires Ends(x, root, 0, {})
    ensures RunsTo(x, root, r) && Run(x, root, 0, {}, fuel) == r
  {
    fuel :| Run(x, root, 0, {}, fuel).Done?;
    r := Run(x, root, 0, {}, fuel);
  }
}
