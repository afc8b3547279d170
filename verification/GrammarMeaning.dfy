/** What the rules of a grammar derive, and that the graph built from them derives exactly the same. */
module GrammarMeaning {
  import opened Options
  import opened MatcherGraph
  import opened Derivations
  import opened Grammar
  import opened RuleReading
  import opened RuleStack
  import opened RuleBuild

  /** The context-free reading of an expression over the rules of `g`. */
  ghost predicate Means(g: Source, accepts: (LeafKind, string) -> bool, e: Expr, t: Tree)
    requires g.Valid()
    decreases t, if e.Ref? then 1 else 0
  {
    match e
    case Word(kind) => t.Token? && accepts(kind, t.text)
    case Ref(n) =>
      if n in g.builtins then t.Token? && accepts(Builtin(n), t.text)
      else n in g.rules && Body(g, n, None).Some? && Means(g, accepts, Body(g, n, None).value, t)
    case Built(_) => false
    case Seq(items) =>
      t.Items? && |t.kids| == |items| && forall i :: 0 <= i < |items| ==> Means(g, accepts, items[i], t.kids[i])
    case Alt(first, second) =>
      t.Picked? && if t.index == 0 then Means(g, accepts, first, t.kid)
                   else t.index == 1 && Means(g, accepts, second, t.kid)
    case Opt(body) => t.Absent? || (t.Present? && Means(g, accepts, body, t.kid))
    case Rep(body) =>
      t.Repeated? && |t.kids| > 0 && forall i :: 0 <= i < |t.kids| ==> Means(g, accepts, body, t.kids[i])
  }

  /** The statements of the grammar with start rule `root`. */
  ghost predicate InLanguage(g: Source, accepts: (LeafKind, string) -> bool, root: string, tokens: seq<string>)
    requires g.Valid()
  {
    exists t :: Means(g, accepts, Ref(root), t) && Yield(t) == tokens
  }

  // ---------- rules without a parameter contain no matchers given from outside ----------

  predicate Plain(e: Expr) {
    match e
    case Built(_) => false
    case Seq(items) => forall i :: 0 <= i < |items| ==> Plain(items[i])
    case Alt(first, second) => Plain(first) && Plain(second)
    case Opt(body) => Plain(body)
    case Rep(body) => Plain(body)
    case _ => true
  }

  predicate AllPlain(items: seq<Expr>) {
    forall i :: 0 <= i < |items| ==> Plain(items[i])
  }

  lemma AddPlain(items: seq<Expr>, pending: bool, e: Expr)
    requires pending ==> items != []
    requires AllPlain(items) && Plain(e)
    ensures AllPlain(Add(items, pending, e))
  {
  }

  lemma LastPlain(items: seq<Expr>, e: Expr)
    requires items != [] && AllPlain(items) && Plain(e)
    ensures AllPlain(items[..|items| - 1] + [e])
  {
  }

  lemma {:induction false} ItemsPlain(g: Source, name: string, arg: Option<Expr>, pos: nat, acc: seq<Expr>,
                                      pending: bool)
    requires g.Valid() && name in g.rules && pos <= |g.rules[name].tokens|
    requires pending ==> acc != []
    requires g.rules[name].parameters != [] ==> arg.Some?
    requires AllPlain(acc) && (arg.Some? ==> Plain(arg.value))
    ensures var r := ReadItems(g, name, arg, pos, acc, pending); r.Some? ==> AllPlain(r.value.0)
    decreases g.rank[name], 0, |g.rules[name].tokens| - pos
  {
    var tokens := g.rules[name].tokens;
    if pos < |tokens| && tokens[pos] != Operator(')') && ReadItems(g, name, arg, pos, acc, pending).Some? {
      var t := tokens[pos];
      match t
      case Literal(text) =>
        AddPlain(acc, pending, Word(Keyword(text)));
        ItemsPlain(g, name, arg, pos + 1, Add(acc, pending, Word(Keyword(text))), false);
      case Reference(n) =>
        var e := if n in g.rules[name].parameters then arg.value else Ref(n);
        AddPlain(acc, pending, e);
        ItemsPlain(g, name, arg, pos + 1, Add(acc, pending, e), false);
      case FunctionCall(f) =>
        ItemsPlain(g, name, arg, pos + 1, [], false);
        var inner := ReadItems(g, name, arg, pos + 1, [], false).value;
        assert FunctionCall(f) in tokens;
        BodyPlain(g, f, Some(Argument(inner.0)));
        var e := Group(g, f, inner.0).value;
        hide Plain;
        AddPlain(acc, pending, e);
        ItemsPlain(g, name, arg, inner.1 + 1, Add(acc, pending, e), false);
      case Operator(op) =>
        OperatorPlain(g, name, arg, pos, acc, pending, op);
      case Regex(_) =>
    }
  }

  lemma {:induction false} OperatorPlain(g: Source, name: string, arg: Option<Expr>, pos: nat, acc: seq<Expr>,
                                         pending: bool, op: char)
    requires g.Valid() && name in g.rules && pos < |g.rules[name].tokens|
    requires g.rules[name].tokens[pos] == Operator(op) && op != ')'
    requires pending ==> acc != []
    requires g.rules[name].parameters != [] ==> arg.Some?
    requires AllPlain(acc) && (arg.Some? ==> Plain(arg.value))
    requires ReadItems(g, name, arg, pos, acc, pending).Some?
    ensures AllPlain(ReadItems(g, name, arg, pos, acc, pending).value.0)
    decreases g.rank[name], 0, |g.rules[name].tokens| - pos, 0
  {
    hide Plain;
    if op == '(' {
      ItemsPlain(g, name, arg, pos + 1, [], false);
      var inner := ReadItems(g, name, arg, pos + 1, [], false).value;
      SeqPlain(inner.0);
      AddPlain(acc, pending, Seq(inner.0));
      ItemsPlain(g, name, arg, inner.1 + 1, Add(acc, pending, Seq(inner.0)), false);
    } else if op == '!' {
      ItemsPlain(g, name, arg, pos + 1, acc, pending);
    } else if op == '/' {
      ItemsPlain(g, name, arg, pos + 1, acc, true);
    } else {
      var last := acc[|acc| - 1];
      var e := if op == '?' then Opt(last) else Opt(Rep(last));
      WrapPlain(last);
      LastPlain(acc, e);
      ItemsPlain(g, name, arg, pos + 1, acc[..|acc| - 1] + [e], false);
    }
  }

  lemma SeqPlain(items: seq<Expr>)
    requires AllPlain(items)
    ensures Plain(Seq(items))
  {
  }

  lemma WrapPlain(e: Expr)
    requires Plain(e)
    ensures Plain(Opt(e)) && Plain(Opt(Rep(e)))
  {
  }

  lemma {:induction false} BodyPlain(g: Source, name: string, arg: Option<Expr>)
    requires g.Valid() && name in g.rules && (arg.Some? ==> Plain(arg.value))
    ensures Body(g, name, arg).Some? ==> Plain(Body(g, name, arg).value)
    decreases g.rank[name], 1, 0
  {
    if Body(g, name, arg).Some? {
      ItemsPlain(g, name, arg, 0, [], false);
    }
  }

  // ---------- the graph means what the rules mean ----------

  /** Matcher `id`, which stands for `e`, derives a tree exactly if `e` does. */
  lemma {:induction false} GraphMeans(g: Source, accepts: (LeafKind, string) -> bool, tokens: seq<string>,
                                      nodes: Graph, cache: map<string, Id>, id: Id, e: Expr, t: Tree)
    requires g.Valid() && FactoryOk(g, nodes, cache, {}, {}) && Stands(nodes, cache, {}, id, e) && Plain(e)
    ensures Derives(Input(nodes, accepts, tokens), id, t) <==> Means(g, accepts, e, t)
    decreases t, if e.Ref? then 1 else 0
  {
    hide FactoryOk, Body, MentionsWithin;
    var x := Input(nodes, accepts, tokens);
    match e
    case Word(_) =>
    case Ref(n) =>
      RuleOfReference(g, nodes, cache, n);
      if n !in g.builtins {
        BodyPlain(g, n, None);
        GraphMeans(g, accepts, tokens, nodes, cache, id, Body(g, n, None).value, t);
      }
    case Seq(items) =>
      if t.Items? && |t.kids| == |items| {
        forall i | 0 <= i < |items|
          ensures Derives(x, nodes[id].children[i], t.kids[i]) <==> Means(g, accepts, items[i], t.kids[i])
        {
          GraphMeans(g, accepts, tokens, nodes, cache, nodes[id].children[i], items[i], t.kids[i]);
        }
      }
    case Alt(first, second) =>
      if t.Picked? {
        GraphMeans(g, accepts, tokens, nodes, cache, nodes[id].options[0], first, t.kid);
        GraphMeans(g, accepts, tokens, nodes, cache, nodes[id].options[1], second, t.kid);
      }
    case Opt(body) =>
      if t.Present? {
        GraphMeans(g, accepts, tokens, nodes, cache, nodes[id].child, body, t.kid);
      }
    case Rep(body) =>
      if t.Repeated? {
        forall i | 0 <= i < |t.kids|
          ensures Derives(x, nodes[id].element, t.kids[i]) <==> Means(g, accepts, body, t.kids[i])
        {
          GraphMeans(g, accepts, tokens, nodes, cache, nodes[id].element, body, t.kids[i]);
        }
      }
  }

  lemma RuleOfReference(g: Source, nodes: Graph, cache: map<string, Id>, n: string)
    requires FactoryOk(g, nodes, cache, {}, {}) && n in cache
    ensures g.Valid()
    ensures if n in g.builtins then cache[n] < |nodes| && nodes[cache[n]] == Leaf(Builtin(n))
            else RuleDone(g, nodes, cache, {}, n)
  {
  }
}
