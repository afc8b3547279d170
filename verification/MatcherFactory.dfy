/** Building the matcher graph from parsed rules, with a cache of rules and a stack of matchers. */
module MatcherFactory {
  import opened Options
  import opened MatcherGraph
  import opened Grammar
  import opened GrammarRoundTrip
  import opened RuleReading
  import opened RuleStack
  import opened RuleMachine
  import opened RuleBuild
  import opened RuleSteps

  datatype BuildError =
    | RuleMissing(name: string)
    | ParameterCountMismatch(name: string, expected: nat, got: nat)
    | QuantifierExpectedList
    | QuantifierAsFirstToken
    | OrExpectedList
    | OrAsFirstToken
    | BracketLeftOpen(name: string)
    | RegexNotSupported(name: string)
    | UnknownOperator(op: char)

  datatype BuildResult = Success(id: Id) | Failure(error: BuildError)

  /** `g` has some of the rules, and with each of them those that it mentions. */
  ghost predicate IsPart(g: Source, rules: Rules) {
    forall n :: n in g.rules ==> n in rules && rules[n] == g.rules[n] && HasMentioned(g, rules, n)
  }

  ghost predicate HasMentioned(g: Source, rules: Rules, n: string)
    requires n in g.rules
  {
    forall m :: m in rules && Mentions(g.rules[n], g.builtins, m) ==> m in g.rules
  }

  /** The rule calls `m`, or refers to it as to a rule of its own. */
  predicate Mentions(rule: Rule, builtins: set<string>, m: string) {
    FunctionCall(m) in rule.tokens || (Reference(m) in rule.tokens && m !in rule.parameters && m !in builtins)
  }

  /** No set of rules that can be built together contains this rule, or the call of it. */
  ghost predicate Unbuildable(g: Source, name: string, arg: Option<Expr>)
    requires g.Valid()
  {
    || name !in g.rules || Body(g, name, arg).None?
    || forall names :: Buildable(g, names) ==> !MentionsWithin(g, name, names)
  }

  lemma ReferenceFails(g: Source, name: string, arg: Option<Expr>, n: string)
    requires g.Valid() && name in g.rules && Reference(n) in g.rules[name].tokens
    requires n !in g.rules[name].parameters && n !in g.builtins && Unbuildable(g, n, None)
    ensures Unbuildable(g, name, arg)
  {
    assert Reference(n).text == n;
  }

  lemma CallFails(g: Source, name: string, arg: Option<Expr>, f: string, names: set<string>)
    requires g.Valid() && name in g.rules && FunctionCall(f) in g.rules[name].tokens && f in g.rules
    requires MentionsWithin(g, name, names)
    ensures MentionsWithin(g, f, names)
  {
    assert FunctionCall(f).text == f;
  }

  lemma CalledIsPart(g: Source, rules: Rules, name: string, f: string)
    requires IsPart(g, rules) && name in g.rules && FunctionCall(f) in g.rules[name].tokens && f in rules
    ensures f in g.rules
  {
    assert Mentions(g.rules[name], g.builtins, f);
  }

  lemma CountFails(g: Source, name: string, arg: Option<Expr>)
    requires g.Valid() && name in g.rules && |g.rules[name].parameters| != (if arg.Some? then 1 else 0)
    ensures Unbuildable(g, name, arg)
  {
  }

  /** A token that cannot be read makes the rule unreadable. */
  lemma TokenFails(g: Source, name: string, arg: Option<Expr>, base: nat, pending: set<string>, b: Build, pos: nat)
    requires LoopInv(g, name, arg, base, pending, b, pos) && pos < |g.rules[name].tokens|
    requires var t := g.rules[name].tokens[pos]; t.Regex? || (t.Operator? && t.op !in "()!/?*")
    ensures Body(g, name, arg).None?
  {
    hide Body, Stands, StandsForFrames, MentionsWithin, FactoryOk, StackOk, Lists, Mentioned;
  }

  class MatcherList {
    const factory: MatcherFactory
    var stack: seq<Entry>

    constructor (factory: MatcherFactory, root: Id)
      ensures this.factory == factory && stack == [Entry(root, "")]
    {
      this.factory, stack := factory, [Entry(root, "")];
    }

    /** Adds a matcher to the one on top of the stack. */
    method AddMatcher(id: Id)
      requires MachineOk(Machine(factory.nodes, stack)) && AddChild(Machine(factory.nodes, stack), id).Some?
      modifies this, factory`nodes
      ensures Machine(factory.nodes, stack) == AddChild(old(Machine(factory.nodes, stack)), id).value
    {
      var top := stack[|stack| - 1].matcher;
      match factory.nodes[top]
      case List(cs) =>
        factory.nodes := factory.nodes[top := List(cs + [id])];
      case Choice(cs) =>
        factory.nodes := factory.nodes[top := Choice(cs + [id])];
        stack := stack[..|stack| - 1];
    }

    /** Opens a bracket, or with a name the argument of a function call. */
    method Begin(functionName: string)
      modifies this, factory`nodes
      ensures Machine(factory.nodes, stack) == Open(old(Machine(factory.nodes, stack)), functionName)
    {
      var list := factory.Allocate(List([]));
      stack := stack + [Entry(list, functionName)];
    }

    method Pop()
      requires MachineOk(Machine(factory.nodes, stack)) && |stack| > 1
      modifies this
      ensures Machine(factory.nodes, stack) == Popped(old(Machine(factory.nodes, stack)))
    {
      stack := stack[..|stack| - 1];
    }

    /** Makes the last item of the topmost list optional, or with '*' repeated and optional. */
    method Quantify(op: char) returns (e: Option<BuildError>)
      requires MachineOk(Machine(factory.nodes, stack))
      modifies factory`nodes
      ensures e.None? <==> old(HasLast(Machine(factory.nodes, stack)))
      ensures e.None? ==>
        Machine(factory.nodes, stack) == (if op == '*' then MakeRepeated(old(Machine(factory.nodes, stack)))
                                          else MakeOptional(old(Machine(factory.nodes, stack))))
    {
      var top := stack[|stack| - 1].matcher;
      if !factory.nodes[top].List? {
        return Some(QuantifierExpectedList);
      }
      var cs := factory.nodes[top].children;
      if cs == [] {
        return Some(QuantifierAsFirstToken);
      }
      var final := cs[|cs| - 1];
      if op == '*' {
        final := factory.Allocate(Repeat(final));
      }
      var replaced := factory.Allocate(Optional(final));
      factory.nodes := factory.nodes[top := List(cs[..|cs| - 1] + [replaced])];
      e := None;
    }

    /** Puts the last item of the topmost list into a choice and leaves that on top, waiting for the alternative. */
    method Or() returns (e: Option<BuildError>)
      requires MachineOk(Machine(factory.nodes, stack))
      modifies this, factory`nodes
      ensures e.None? <==> old(HasLast(Machine(factory.nodes, stack)))
      ensures e.None? ==> Machine(factory.nodes, stack) == MakeChoice(old(Machine(factory.nodes, stack)))
    {
      var top := stack[|stack| - 1].matcher;
      if !factory.nodes[top].List? {
        return Some(OrExpectedList);
      }
      var cs := factory.nodes[top].children;
      if cs == [] {
        return Some(OrAsFirstToken);
      }
      var choice := factory.Allocate(Choice([cs[|cs| - 1]]));
      factory.nodes := factory.nodes[top := List(cs[..|cs| - 1] + [choice])];
      stack := stack + [Entry(choice, "")];
      e := None;
    }
  }

  class MatcherFactory {
    const rules: Rules
    ghost const g: Source
    var nodes: Graph
    var matchers: map<string, Id>

    constructor (rules: Rules, ghost g: Source)
      requires IsPart(g, rules)
      ensures this.rules == rules && this.g == g && nodes == [] && matchers == map[]
    {
      this.rules, this.g, nodes, matchers := rules, g, [], map[];
    }

    method Allocate(m: Matcher) returns (id: Id)
      modifies this`nodes
      ensures nodes == old(nodes) + [m] && id == |old(nodes)|
    {
      id := |nodes|;
      nodes := nodes + [m];
    }

    /** Binds a name to a built-in matcher, unless it is bound already. */
    method AddRuleOverride(name: string)
      modifies this
      ensures nodes == old(nodes) + [Leaf(Builtin(name))]
      ensures matchers == if name in old(matchers) then old(matchers) else old(matchers)[name := |old(nodes)|]
    {
      var id := Allocate(Leaf(Builtin(name)));
      if name !in matchers {
        matchers := matchers[name := id];
      }
    }

    ghost predicate Ok(open: set<Id>, pending: set<string>)
      reads this
    {
      IsPart(g, rules) && FactoryOk(g, nodes, matchers, open, pending)
    }

    /** Returns the matcher of a rule, building it unless it is cached, or of a function applied to a parameter.
        It fails exactly when the rule cannot be built; when it succeeds, the matcher stands for the rule
        as `Body` reads it, and so does every other rule built on the way. */
    method CreateMatcher(name: string, parameters: seq<Id>, ghost arg: Option<Expr>, ghost open: set<Id>,
                         ghost pending: set<string>) returns (r: BuildResult)
      requires Ok(open, pending) && |parameters| == (if arg.Some? then 1 else 0)
      requires name in rules ==> name in g.rules || (arg.None? && name in matchers)
      requires arg.Some? ==> Stands(nodes, matchers, open, parameters[0], arg.value)
      modifies this
      ensures r.Success? ==>
        && Ok(open, pending) && old(nodes) <= nodes && SubMap(old(matchers), matchers) && r.id < |nodes|
        && if arg.None? then name in matchers && matchers[name] == r.id
           else
             && name in g.rules && Body(g, name, arg).Some? && MentionsWithin(g, name, matchers.Keys)
             && Stands(nodes, matchers, open, r.id, Body(g, name, arg).value)
      ensures r.Failure? ==> Unbuildable(g, name, arg) && (arg.None? ==> name !in old(matchers))
      decreases rules.Keys - matchers.Keys, if name in g.rules && parameters != [] then 1 + g.rank[name] else 0, 4
    {
      hide Body, Stands, MentionsWithin, RuleDone, HasMentioned, StackOk, Reading, Lists, LoopInv;
      if parameters == [] && name in matchers {
        return Success(matchers[name]);
      }
      if name !in rules {
        return Failure(RuleMissing(name));
      }
      var rule := rules[name];
      if |parameters| != |rule.parameters| {
        CountFails(g, name, arg);
        return Failure(ParameterCountMismatch(name, |rule.parameters|, |parameters|));
      }
      ghost var nodes0, cache0, base := nodes, matchers, |nodes|;
      ghost var pending' := if arg.None? then pending + {name} else pending;
      var root := Allocate(List([]));
      NewRoot(g, nodes0, cache0, open, pending);
      if parameters == [] {
        CacheGrows(g, nodes, matchers, open + {root}, pending, name, root);
        matchers := matchers[name := root];
      }
      assert name in rules.Keys - cache0.Keys || parameters != [];
      StartStep(g, name, arg, pending', nodes0, matchers, open);
      ghost var b := StartBuild(nodes0, matchers, open);
      var list := new MatcherList(this, root);
      var e;
      e, b := FillMatcher(list, name, parameters, nodes0, cache0, open, arg, base, pending', b);
      if e.Some? {
        return Failure(e.value);
      }
      FinishRule(g, name, arg, base, pending, pending', open, b);
      r := Success(root);
    }

    /** Reads all the tokens of a rule. */
    method FillMatcher(list: MatcherList, name: string, parameters: seq<Id>, ghost nodes0: Graph,
                       ghost cache0: map<string, Id>, ghost open: set<Id>, ghost arg: Option<Expr>, ghost base: nat,
                       ghost pending: set<string>, ghost b: Build)
      returns (e: Option<BuildError>, ghost b': Build)
      requires IsPart(g, rules) && list.factory == this
      requires b.m == Machine(nodes, list.stack) && b.cache == matchers
      requires LoopInv(g, name, arg, base, pending, b, 0) && |parameters| == |rules[name].parameters|
      requires base == |nodes0| && nodes0 <= nodes && SubMap(cache0, matchers)
      requires forall k :: k < base ==> (k in open <==> k in b.open)
      requires parameters != [] ==> arg.Some? && Stands(nodes0, cache0, open, parameters[0], arg.value)
      modifies this, list
      ensures e.Some? ==> Unbuildable(g, name, arg)
      ensures e.None? ==>
        && b'.m == Machine(nodes, list.stack) && b'.cache == matchers
        && LoopInv(g, name, arg, base, pending, b', |rules[name].tokens|)
        && nodes0 <= nodes && SubMap(old(matchers), matchers)
        && (forall k :: k < base ==> (k in open <==> k in b'.open))
        && list.stack == [old(list.stack)[0]]
      decreases rules.Keys - matchers.Keys, 1 + g.rank[name], 3
    {
      hide FactoryOk, AddChild, Reading, Lists, Body, Stands, HasMentioned;
      b' := b;
      var i := 0;
      while i < |rules[name].tokens|
        invariant i <= |rules[name].tokens|
        invariant b'.m == Machine(nodes, list.stack) && b'.cache == matchers
        invariant LoopInv(g, name, arg, base, pending, b', i)
        invariant nodes0 <= nodes && SubMap(cache0, matchers) && SubMap(old(matchers), matchers)
        invariant forall k :: k < base ==> (k in open <==> k in b'.open)
        invariant list.stack != [] && list.stack[0] == old(list.stack)[0]
      {
        if parameters != [] {
          StandsLater(nodes0, cache0, open, nodes, matchers, b'.open, parameters[0], arg.value);
        }
        e, b' := BuildToken(list, name, parameters, i, arg, base, pending, b');
        if e.Some? {
          return;
        }
        i := i + 1;
      }
      if |list.stack| != 1 {
        EndStep(g, name, arg, base, pending, b');
        return Some(BracketLeftOpen(name)), b';
      }
      e := None;
    }

    method BuildToken(list: MatcherList, name: string, parameters: seq<Id>, i: nat, ghost arg: Option<Expr>,
                      ghost base: nat, ghost pending: set<string>, ghost b: Build)
      returns (e: Option<BuildError>, ghost b': Build)
      requires IsPart(g, rules) && list.factory == this
      requires b.m == Machine(nodes, list.stack) && b.cache == matchers && base <= |nodes|
      requires LoopInv(g, name, arg, base, pending, b, i) && i < |rules[name].tokens|
      requires |parameters| == |rules[name].parameters|
      requires parameters != [] ==> arg.Some? && Stands(nodes, matchers, b.open, parameters[0], arg.value)
      modifies this, list
      ensures e.Some? ==> Unbuildable(g, name, arg)
      ensures e.None? ==>
        && b'.m == Machine(nodes, list.stack) && b'.cache == matchers
        && LoopInv(g, name, arg, base, pending, b', i + 1)
        && OnlyFrom(base, b, b') && SubMap(old(matchers), matchers)
        && b'.m.stack != [] && b'.m.stack[0] == b.m.stack[0]
      decreases rules.Keys - matchers.Keys, 1 + g.rank[name], 2
    {
      hide FactoryOk, AddChild, Reading, Lists, Body, Stands, HasMentioned;
      var t := rules[name].tokens[i];
      match t
      case Literal(text) =>
        b' := BuildKeyword(list, name, i, arg, base, pending, b);
        e := None;
      case Reference(n) =>
        e, b' := BuildReference(list, name, parameters, i, arg, base, pending, b);
      case FunctionCall(f) =>
        assert TokenOk(t);
        list.Begin(f);
        b' := OpenStep(g, name, arg, base, pending, b, i, f);
        e := None;
      case Operator(op) =>
        if op == '?' || op == '*' {
          e, b' := BuildQuantifier(list, name, i, op, arg, base, pending, b);
        } else if op == '/' {
          e, b' := BuildChoice(list, name, i, arg, base, pending, b);
        } else if op == '(' {
          list.Begin("");
          b' := OpenStep(g, name, arg, base, pending, b, i, "");
          e := None;
        } else if op == ')' {
          e, b' := CloseBracket(list, name, i, arg, base, pending, b);
        } else if op == '!' {
          NotStep(g, name, arg, base, pending, b, i);
          e, b' := None, b;
        } else {
          TokenFails(g, name, arg, base, pending, b, i);
          e, b' := Some(UnknownOperator(op)), b;
        }
      case Regex(_) =>
        TokenFails(g, name, arg, base, pending, b, i);
        e, b' := Some(RegexNotSupported(name)), b;
    }

    method BuildQuantifier(list: MatcherList, name: string, i: nat, op: char, ghost arg: Option<Expr>,
                           ghost base: nat, ghost pending: set<string>, ghost b: Build)
      returns (e: Option<BuildError>, ghost b': Build)
      requires IsPart(g, rules) && list.factory == this
      requires b.m == Machine(nodes, list.stack) && b.cache == matchers && base <= |nodes|
      requires LoopInv(g, name, arg, base, pending, b, i) && i < |rules[name].tokens|
      requires rules[name].tokens[i] == Operator(op) && (op == '?' || op == '*')
      modifies this`nodes
      ensures e.Some? ==> Unbuildable(g, name, arg)
      ensures e.None? ==>
        && b'.m == Machine(nodes, list.stack) && b'.cache == matchers
        && LoopInv(g, name, arg, base, pending, b', i + 1) && OnlyFrom(base, b, b')
        && b'.m.stack != [] && b'.m.stack[0] == b.m.stack[0]
    {
      hide FactoryOk, Reading, Lists, Body, MakeOptional, MakeRepeated;
      if !HasLast(b.m) {
        NoLastItem(g, name, arg, base, pending, b, i);
      }
      e := list.Quantify(op);
      b' := b;
      if e.None? {
        b' := QuantifierStep(g, name, arg, base, pending, b, i, op);
      }
    }

    method BuildChoice(list: MatcherList, name: string, i: nat, ghost arg: Option<Expr>,
                       ghost base: nat, ghost pending: set<string>, ghost b: Build)
      returns (e: Option<BuildError>, ghost b': Build)
      requires IsPart(g, rules) && list.factory == this
      requires b.m == Machine(nodes, list.stack) && b.cache == matchers && base <= |nodes|
      requires LoopInv(g, name, arg, base, pending, b, i) && i < |rules[name].tokens|
      requires rules[name].tokens[i] == Operator('/')
      modifies this`nodes, list
      ensures e.Some? ==> Unbuildable(g, name, arg)
      ensures e.None? ==>
        && b'.m == Machine(nodes, list.stack) && b'.cache == matchers
        && LoopInv(g, name, arg, base, pending, b', i + 1) && OnlyFrom(base, b, b')
        && b'.m.stack != [] && b'.m.stack[0] == b.m.stack[0]
    {
      hide FactoryOk, Reading, Lists, Body, ReplaceLast;
      if !HasLast(b.m) {
        NoLastItem(g, name, arg, base, pending, b, i);
      }
      e := list.Or();
      b' := b;
      if e.None? {
        b' := OrStep(g, name, arg, base, pending, b, i);
      }
    }

    method BuildKeyword(list: MatcherList, name: string, i: nat, ghost arg: Option<Expr>,
                        ghost base: nat, ghost pending: set<string>, ghost b: Build) returns (ghost b': Build)
      requires IsPart(g, rules) && list.factory == this
      requires b.m == Machine(nodes, list.stack) && b.cache == matchers && base <= |nodes|
      requires LoopInv(g, name, arg, base, pending, b, i) && i < |rules[name].tokens| && rules[name].tokens[i].Literal?
      modifies this`nodes, list
      ensures b'.m == Machine(nodes, list.stack) && b'.cache == matchers
      ensures LoopInv(g, name, arg, base, pending, b', i + 1) && OnlyFrom(base, b, b')
      ensures b'.m.stack != [] && b'.m.stack[0] == b.m.stack[0]
    {
      hide FactoryOk, AddChild, StackOk, Reading, Lists, Body;
      var kind := Keyword(rules[name].tokens[i].text);
      var id := Allocate(Leaf(kind));
      NewMatcher(g, name, arg, base, pending, b, i, Leaf(kind));
      ghost var b1 := GrowStep(g, name, arg, base, pending, b, i, nodes, matchers);
      b' := PrimaryStep(g, name, arg, base, pending, b1, i, id);
      list.AddMatcher(id);
    }

    method BuildReference(list: MatcherList, name: string, parameters: seq<Id>, i: nat, ghost arg: Option<Expr>,
                          ghost base: nat, ghost pending: set<string>, ghost b: Build)
      returns (e: Option<BuildError>, ghost b': Build)
      requires IsPart(g, rules) && list.factory == this
      requires b.m == Machine(nodes, list.stack) && b.cache == matchers && base <= |nodes|
      requires LoopInv(g, name, arg, base, pending, b, i)
      requires i < |rules[name].tokens| && rules[name].tokens[i].Reference?
      requires |parameters| == |rules[name].parameters|
      requires parameters != [] ==> arg.Some? && Stands(nodes, matchers, b.open, parameters[0], arg.value)
      modifies this, list
      ensures e.Some? ==> Unbuildable(g, name, arg)
      ensures e.None? ==>
        && b'.m == Machine(nodes, list.stack) && b'.cache == matchers
        && LoopInv(g, name, arg, base, pending, b', i + 1)
        && OnlyFrom(base, b, b') && SubMap(old(matchers), matchers)
        && b'.m.stack != [] && b'.m.stack[0] == b.m.stack[0]
      decreases rules.Keys - matchers.Keys, 1 + g.rank[name], 1
    {
      hide AddChild, StackOk, Reading, Lists, Body, RuleDone, OnlyFrom;
      var n := rules[name].tokens[i].text;
      if n in rules[name].parameters {
        var id := parameters[0];
        b' := PrimaryStep(g, name, arg, base, pending, b, i, id);
        list.AddMatcher(id);
        return None, b';
      }
      var r := CreateMatcher(n, [], None, b.open, pending);
      if r.Failure? {
        assert Reference(n) in rules[name].tokens;
        ReferenceFails(g, name, arg, n);
        return Some(r.error), b;
      }
      ghost var b1 := GrowStep(g, name, arg, base, pending, b, i, nodes, matchers);
      b' := PrimaryStep(g, name, arg, base, pending, b1, i, r.id);
      OnlyFromTwice(base, b, b1, b');
      list.AddMatcher(r.id);
      e := None;
    }

    method CloseBracket(list: MatcherList, name: string, i: nat, ghost arg: Option<Expr>,
                        ghost base: nat, ghost pending: set<string>, ghost b: Build)
      returns (e: Option<BuildError>, ghost b': Build)
      requires IsPart(g, rules) && list.factory == this
      requires b.m == Machine(nodes, list.stack) && b.cache == matchers && base <= |nodes|
      requires LoopInv(g, name, arg, base, pending, b, i) && i < |rules[name].tokens|
      requires rules[name].tokens[i] == Operator(')')
      modifies this, list
      ensures e.Some? ==> Unbuildable(g, name, arg)
      ensures e.None? ==>
        && b'.m == Machine(nodes, list.stack) && b'.cache == matchers
        && LoopInv(g, name, arg, base, pending, b', i + 1)
        && OnlyFrom(base, b, b') && SubMap(old(matchers), matchers)
        && b'.m.stack != [] && b'.m.stack[0] == b.m.stack[0]
      decreases rules.Keys - matchers.Keys, 1 + g.rank[name], 1
    {
      hide FactoryOk, Reading, Lists, Body, Stands, Closes, AddChild, HasMentioned, OnlyFrom;
      BracketIsOpen(g, name, arg, base, pending, b, i);
      var entry := list.stack[|list.stack| - 1];
      ghost var e1;
      var id;
      b' := b;
      if entry.fn == "" {
        id := entry.matcher;
        OnlyItself(base, b);
        e1 := Seq(if b.doomed then [] else TopFrame(b.frames).items);
        BracketCloses(g, name, arg, base, pending, b, i);
      } else {
        var r;
        r, e1, b' := CallFunction(list, name, i, arg, base, pending, b);
        if r.Failure? {
          return Some(r.error), b;
        }
        id := r.id;
      }
      ghost var b1 := b';
      b' := CloseStep(g, name, arg, base, pending, b1, i, id, e1);
      OnlyFromTwice(base, b, b1, b');
      list.Pop();
      list.AddMatcher(id);
      e := None;
    }

    /** The items collected on top of the stack as one matcher: the only item itself, or a list of them. */
    method CallParameter(list: MatcherList, name: string, i: nat, ghost arg: Option<Expr>,
                         ghost base: nat, ghost pending: set<string>, ghost b: Build)
      returns (parameter: Id, ghost argument: Expr, ghost b': Build)
      requires IsPart(g, rules) && list.factory == this
      requires b.m == Machine(nodes, list.stack) && b.cache == matchers && base <= |nodes|
      requires LoopInv(g, name, arg, base, pending, b, i) && i < |rules[name].tokens|
      requires list.stack[|list.stack| - 1].fn != ""
      modifies this`nodes
      ensures b'.m == Machine(nodes, list.stack) && b'.cache == matchers && b' == b.(m := b'.m)
      ensures LoopInv(g, name, arg, base, pending, b', i) && OnlyFrom(base, b, b')
      ensures Stands(nodes, matchers, b.open, parameter, argument)
      ensures !b.doomed ==>
        && FramesOk(b.frames) && !TopFrame(b.frames).pending && TopFrame(b.frames).fn == list.stack[|list.stack| - 1].fn
        && argument == Argument(TopFrame(b.frames).items)
    {
      hide Reading, Lists, Body, Stands, AddChild, RuleDone, HasMentioned;
      var entry := list.stack[|list.stack| - 1];
      var cs := nodes[entry.matcher].children;
      assert RefersBelow(List(cs), |nodes|);
      if !b.doomed {
        CallArgument(g, name, arg, base, pending, b, i);
      }
      b' := b;
      if |cs| == 1 {
        parameter := cs[0];
      } else {
        parameter := Allocate(List(cs));
        NewMatcher(g, name, arg, base, pending, b, i, List(cs));
        b' := GrowStep(g, name, arg, base, pending, b, i, nodes, matchers);
      }
      argument := if b.doomed then Built(parameter) else Argument(TopFrame(b.frames).items);
      assert b.doomed ==> Stands(nodes, matchers, b.open, parameter, argument) by {
        BuiltStands(nodes, matchers, b.open, parameter);
      }
    }

    /** Applies the function named on top of the stack to the items collected for it. */
    method CallFunction(list: MatcherList, name: string, i: nat, ghost arg: Option<Expr>,
                        ghost base: nat, ghost pending: set<string>, ghost b: Build)
      returns (r: BuildResult, ghost e: Expr, ghost b': Build)
      requires IsPart(g, rules) && list.factory == this
      requires b.m == Machine(nodes, list.stack) && b.cache == matchers && base <= |nodes|
      requires LoopInv(g, name, arg, base, pending, b, i) && i < |rules[name].tokens|
      requires rules[name].tokens[i] == Operator(')')
      requires list.stack[|list.stack| - 1].fn != ""
      modifies this
      ensures r.Failure? ==> Unbuildable(g, name, arg)
      ensures r.Success? ==>
        && b'.m == Machine(nodes, list.stack) && b'.cache == matchers && r.id < |nodes|
        && LoopInv(g, name, arg, base, pending, b', i) && OnlyFrom(base, b, b') && SubMap(old(matchers), matchers)
        && b'.frames == b.frames && b'.doomed == b.doomed && b'.m.stack == b.m.stack
        && (!b.doomed && !TopFrame(b.frames).pending ==> Closes(g, b', r.id, e))
      decreases rules.Keys - matchers.Keys, 1 + g.rank[name], 0
    {
      hide Reading, Lists, Body, Stands, AddChild, RuleDone, Closes, HasMentioned;
      var entry := list.stack[|list.stack| - 1];
      assert MachineOk(b.m) && FunctionCall(entry.fn) in rules[name].tokens;
      if entry.fn in rules {
        CalledIsPart(g, rules, name, entry.fn);
      }
      hide StackOk, OnlyFrom;
      var parameter;
      ghost var argument;
      parameter, argument, b' := CallParameter(list, name, i, arg, base, pending, b);
      r := CreateMatcher(entry.fn, [parameter], Some(argument), b.open, pending);
      if r.Failure? {
        CallUnbuildable(g, name, arg, base, pending, b', i, entry.fn, argument);
        return r, argument, b';
      }
      ghost var b1 := b';
      b' := GrowStep(g, name, arg, base, pending, b1, i, nodes, matchers);
      OnlyFromTwice(base, b, b1, b');
      e := Body(g, entry.fn, Some(argument)).value;
      if !b.doomed {
        CallCloses(g, b', r.id);
      }
    }
  }

  lemma OnlyItself(base: nat, b: Build)
    ensures OnlyFrom(base, b, b)
  {
  }

  lemma BuiltStands(nodes: Graph, cache: map<string, Id>, open: set<Id>, id: Id)
    requires id < |nodes|
    ensures Stands(nodes, cache, open, id, Built(id))
  {
  }

  /** A call that cannot be built makes the rule unbuildable. */
  lemma CallUnbuildable(g: Source, name: string, arg: Option<Expr>, base: nat, pending: set<string>, b: Build, pos: nat,
                        f: string, argument: Expr)
    requires LoopInv(g, name, arg, base, pending, b, pos) && pos < |g.rules[name].tokens|
    requires g.rules[name].tokens[pos] == Operator(')') && f != "" && FunctionCall(f) in g.rules[name].tokens
    requires !b.doomed ==> TopFrame(b.frames).fn == f && argument == Argument(TopFrame(b.frames).items)
    requires Unbuildable(g, f, Some(argument))
    ensures Unbuildable(g, name, arg)
  {
    hide Stands, StandsForFrames, FactoryOk, StackOk, Lists, Depth, Resume, Mentioned, Body;
    if !b.doomed {
      if f !in g.rules || Body(g, f, Some(argument)).None? {
        CloseFails(g, name, arg, base, pending, b, pos);
      } else {
        forall names | Buildable(g, names) ensures !MentionsWithin(g, name, names) {
          if MentionsWithin(g, name, names) {
            CallFails(g, name, arg, f, names);
          }
        }
      }
    }
  }

  /** A new leaf or list of existing matchers changes nothing else. */
  lemma NewMatcher(g: Source, name: string, arg: Option<Expr>, base: nat, pending: set<string>, b: Build, pos: nat,
                   m: Matcher)
    requires LoopInv(g, name, arg, base, pending, b, pos) && RefersBelow(m, |b.m.nodes|)
    ensures FactoryOk(g, b.m.nodes + [m], b.cache, b.open, pending) && b.m.nodes <= b.m.nodes + [m]
    ensures Later(b.m.nodes, b.open, b.m.nodes + [m], b.open) && |b.m.nodes| !in b.open
  {
    hide Body, RuleDone, StackOk, Reading, Lists;
    var nodes' := b.m.nodes + [m];
    forall i | 0 <= i < |nodes'| ensures RefersBelow(nodes'[i], |nodes'|) {
      if i < |b.m.nodes| { assert RefersBelow(b.m.nodes[i], |b.m.nodes|); }
    }
    FactoryLater(g, b.m.nodes, b.cache, b.open, pending, nodes', b.open);
  }
}
