/** From grammar text to the matcher of its start rule, and from there to which statements are accepted. */
module RootMatcher {
  import opened Options
  import opened Acyclic
  import opened MatcherGraph
  import opened Derivations
  import opened Grammar
  import opened GrammarRoundTrip
  import opened GrammarSoundness
  import opened PegParser
  import opened RuleReading
  import opened RuleStack
  import opened RuleBuild
  import opened MatcherFactory
  import opened GrammarMeaning
  import opened PegCheck

  const BUILTINS := [
    "Identifier", "ReservedIdentifier", "TypeName", "TableName", "ReservedTableName", "CatalogName", "SchemaName",
    "ReservedSchemaName", "ColumnName", "ReservedColumnName", "TableFunctionName", "FunctionName",
    "ReservedFunctionName", "PragmaName", "SettingName", "NumberLiteral", "StringLiteral", "OperatorLiteral"]

  ghost function SourceOf(rules: Rules, rank: map<string, nat>): Source {
    Source(rules, (set n | n in BUILTINS), rank)
  }

  datatype RootResult =
    | Root(nodes: Graph, id: Id)
    | ParseFailed(parseError: ParseError)
    | BuildFailed(buildError: BuildError)

  /** No function calls itself, as the rank shows. */
  ghost predicate Ranked(rules: Rules, rank: map<string, nat>) {
    && (forall n :: n in rules ==> n in rank)
    && forall n, f :: n in rules && FunctionCall(f) in rules[n].tokens && f in rules ==> rank[f] < rank[n]
  }

  ghost function CallStep(rules: Rules): (string, string) -> bool {
    (n: string, f: string) => n in rules && f in rules && FunctionCall(f) in rules[n].tokens
  }

  /** There is a rank exactly when no function calls itself, directly or through others. */
  lemma RankedExactly(rules: Rules)
    ensures (exists rank :: Ranked(rules, rank)) <==> !Cyclic(CallStep(rules))
  {
    hide Cyclic;
    var next := CallStep(rules);
    RankExactly(next, rules.Keys);
    if rank :| Ranked(rules, rank) {
      var f: string -> nat := (n: string) => if n in rank then rank[n] else 0;
      assert FallsAlong(next, f);
    }
    if !Cyclic(next) {
      var f: string -> nat :| FallsAlong(next, f);
      var rank := map n | n in rules :: f(n);
      forall n, f' | n in rules && FunctionCall(f') in rules[n].tokens && f' in rules ensures rank[f'] < rank[n] {
        assert next(n, f');
      }
      assert Ranked(rules, rank);
    }
  }

  ghost function MentionStep(rules: Rules): (string, string) -> bool {
    (n: string, m: string) => n in rules && m in rules && Mentions(rules[n], (set b | b in BUILTINS), m)
  }

  /** The rules that the start rule mentions, or that a rule it mentions does, and so on. */
  ghost function Part(rules: Rules, root: string): Rules {
    map n | n in rules && IsMentioned(rules, root, n) :: rules[n]
  }

  ghost predicate IsMentioned(rules: Rules, root: string, n: string) {
    root !in BUILTINS && (n == root || Reaches(MentionStep(rules), root, n))
  }

  lemma PartIsPart(rules: Rules, root: string, rank: map<string, nat>)
    ensures IsPart(SourceOf(Part(rules, root), rank), rules)
    ensures root in rules && root !in BUILTINS ==> root in Part(rules, root)
  {
    hide BUILTINS, Reaches;
    var g := SourceOf(Part(rules, root), rank);
    forall n, m | n in g.rules && m in rules && Mentions(g.rules[n], g.builtins, m) ensures m in g.rules {
      if n == root {
        StepReaches(MentionStep(rules), root, m);
      } else {
        ReachesOn(MentionStep(rules), root, n, m);
      }
    }
  }

  lemma ParsedSourceValid(text: string, root: string, rank: map<string, nat>)
    requires IsCString(text) && Parse(text).Ok? && Ranked(Part(Parse(text).value, root), rank)
    ensures SourceOf(Part(Parse(text).value, root), rank).Valid()
  {
    hide Parse, RuleOk, BUILTINS;
    ParseSound(text);
  }

  /** The start rule is built in, or belongs to a set of rules that can be built. */
  ghost predicate Startable(g: Source, root: string)
    requires g.Valid()
  {
    root in g.builtins || exists names :: root in names && Buildable(g, names)
  }

  /** When the start rule is built, all rules built on the way can be built together. */
  lemma BuiltTogether(g: Source, nodes: Graph, cache: map<string, Id>, root: string)
    requires FactoryOk(g, nodes, cache, {}, {}) && root in cache
    ensures g.Valid() && Startable(g, root)
  {
    hide Body, Stands;
    if root !in g.builtins {
      var names := cache.Keys - g.builtins;
      forall n | n in names ensures n in g.rules && Body(g, n, None).Some? && MentionsWithin(g, n, names) {
        assert RuleDone(g, nodes, cache, {}, n);
        MentionsOthers(g, n, cache.Keys);
      }
      assert root in names && Buildable(g, names);
    }
  }

  lemma {:induction false} MentionsOthers(g: Source, name: string, names: set<string>)
    requires g.Valid() && name in g.rules && MentionsWithin(g, name, names)
    ensures MentionsWithin(g, name, names - g.builtins)
    decreases g.rank[name]
  {
    forall t | t in g.rules[name].tokens && t.FunctionCall? && t.text in g.rules
      ensures MentionsWithin(g, t.text, names - g.builtins)
    {
      assert FunctionCall(t.text) in g.rules[name].tokens;
      MentionsOthers(g, t.text, names);
    }
  }

  lemma NotStartable(g: Source, root: string)
    requires g.Valid() && Unbuildable(g, root, None) && root !in g.builtins
    ensures !Startable(g, root)
  {
    hide Body, MentionsWithin;
  }

  /** Binds the built-in names in a new factory. */
  method BindBuiltins(factory: MatcherFactory)
    requires factory.nodes == [] && factory.matchers == map[]
    modifies factory
    ensures factory.matchers.Keys == set n | n in BUILTINS
    ensures forall i :: 0 <= i < |factory.nodes| ==> factory.nodes[i].Leaf?
    ensures forall n :: n in factory.matchers ==>
      factory.matchers[n] < |factory.nodes| && factory.nodes[factory.matchers[n]] == Leaf(Builtin(n))
  {
    for k := 0 to |BUILTINS|
      invariant factory.matchers.Keys == set n | n in BUILTINS[..k]
      invariant |factory.nodes| == k && forall i :: 0 <= i < k ==> factory.nodes[i].Leaf?
      invariant forall n :: n in factory.matchers ==>
        factory.matchers[n] < k && factory.nodes[factory.matchers[n]] == Leaf(Builtin(n))
    {
      hide BUILTINS;
      factory.AddRuleOverride(BUILTINS[k]);
      assert BUILTINS[..k + 1] == BUILTINS[..k] + [BUILTINS[k]];
    }
    assert BUILTINS[..|BUILTINS|] == BUILTINS;
  }

  /** Builds the matcher of the start rule. It succeeds exactly for grammars that parse and whose start rule
      can be built, and then the matcher derives exactly what the start rule derives. Building ends if no function
      that the start rule mentions, directly or through others, calls itself. */
  method CreateRoot(text: string, root: string, ghost rank: map<string, nat>) returns (r: RootResult)
    requires IsCString(text) && (Parse(text).Ok? ==> Ranked(Part(Parse(text).value, root), rank))
    ensures r.ParseFailed? <==> Parse(text).Err?
    ensures Parse(text).Ok? ==>
      var g := SourceOf(Part(Parse(text).value, root), rank);
      && g.Valid()
      && (r.Root? <==> Startable(g, root))
      && (r.Root? ==>
            && Closed(r.nodes) && r.id < |r.nodes|
            && forall accepts, tokens, t :: Derives(Input(r.nodes, accepts, tokens), r.id, t)
                                            <==> Means(g, accepts, Ref(root), t))
  {
    hide Parse, Means, Derives, Startable, Part, Ranked, IsPart, BUILTINS;
    var parser := new PegParser();
    var parsed := parser.ParseRules(text);
    if parsed.Err? {
      return ParseFailed(parsed.error);
    }
    ParsedSourceValid(text, root, rank);
    PartIsPart(parser.rules, root, rank);
    ghost var g := SourceOf(Part(parser.rules, root), rank);
    var factory := new MatcherFactory(parser.rules, g);
    BindBuiltins(factory);
    var built := factory.CreateMatcher(root, [], None, {}, {});
    if built.Failure? {
      NotStartable(g, root);
      return BuildFailed(built.error);
    }
    BuiltTogether(g, factory.nodes, factory.matchers, root);
    r := Root(factory.nodes, built.id);
    forall accepts, tokens, t
      ensures Derives(Input(r.nodes, accepts, tokens), r.id, t) <==> Means(g, accepts, Ref(root), t)
    {
      GraphMeans(g, accepts, tokens, factory.nodes, factory.matchers, r.id, Ref(root), t);
    }
  }

  /** A statement that passes the check is a statement of the grammar the matcher was built from. */
  lemma PassingIsInLanguage(g: Source, accepts: (LeafKind, string) -> bool, nodes: Graph, id: Id, root: string,
                            tokens: seq<string>)
    requires g.Valid() && tokens != [] && Passes(nodes, accepts, id, tokens)
    requires forall t :: Derives(Input(nodes, accepts, tokens), id, t) <==> Means(g, accepts, Ref(root), t)
    ensures InLanguage(g, accepts, root, tokens)
  {
    hide Means, Passes, Derives;
    PassingIsDerivable(nodes, accepts, id, tokens);
    var t :| Derives(Input(nodes, accepts, tokens), id, t) && Yield(t) == tokens;
  }
}
