/** How the tokens of a rule are read, as a recursive definition: a left fold in which '/' joins the last item
    with the next primary, '?' and '*' wrap the whole last item, '!' is skipped, brackets group,
    and a function call is replaced by the body of the function with its argument filled in. */
module RuleReading {
  import opened Options
  import opened Grammar
  import opened GrammarRoundTrip
  import opened MatcherGraph

  /** `Built` is an argument given as a matcher that exists already. */
  datatype Expr =
    | Word(kind: LeafKind)
    | Ref(name: string)
    | Built(id: Id)
    | Seq(items: seq<Expr>)
    | Alt(first: Expr, second: Expr)
    | Opt(body: Expr)
    | Rep(body: Expr)

  /** A grammar: its rules, the names bound to built-in matchers, and a rank that goes down along
      function calls, which exists when no function calls itself. */
  datatype Source = Source(rules: Rules, builtins: set<string>, rank: map<string, nat>) {
    ghost predicate Valid() {
      && (forall n :: n in rules ==> RuleOk(rules[n]) && n in rank)
      && (forall n, f :: n in rules && FunctionCall(f) in rules[n].tokens && f in rules ==> rank[f] < rank[n])
    }
  }

  /** Adds the next primary; after '/' it becomes the second alternative of the last item. */
  function Add(items: seq<Expr>, pending: bool, e: Expr): seq<Expr>
    requires pending ==> items != []
  {
    if pending then items[..|items| - 1] + [Alt(items[|items| - 1], e)] else items + [e]
  }

  function Argument(items: seq<Expr>): Expr {
    if |items| == 1 then items[0] else Seq(items)
  }

  /** What a bracket stands for: the group itself, or the function `f` applied to it. */
  ghost function Group(g: Source, f: string, items: seq<Expr>): Option<Expr>
    requires g.Valid() && f in g.rules
    decreases g.rank[f], 2, 0
  {
    Body(g, f, Some(Argument(items)))
  }

  /** Reads items from token `pos` up to the end of the bracket or of the rule. */
  ghost function ReadItems(g: Source, name: string, arg: Option<Expr>, pos: nat, acc: seq<Expr>, pending: bool)
      : (r: Option<(seq<Expr>, nat)>)
    requires g.Valid() && name in g.rules && pos <= |g.rules[name].tokens|
    requires pending ==> acc != []
    requires g.rules[name].parameters != [] ==> arg.Some?
    ensures r.Some? ==>
      && pos <= r.value.1 <= |g.rules[name].tokens|
      && (r.value.1 < |g.rules[name].tokens| ==> g.rules[name].tokens[r.value.1] == Operator(')'))
    decreases g.rank[name], 0, |g.rules[name].tokens| - pos
  {
    var tokens := g.rules[name].tokens;
    if pos == |tokens| || tokens[pos] == Operator(')') then
      if pending then None else Some((acc, pos))
    else
      var t := tokens[pos];
      match t
      case Literal(text) => ReadItems(g, name, arg, pos + 1, Add(acc, pending, Word(Keyword(text))), false)
      case Reference(n) =>
        var e := if n in g.rules[name].parameters then arg.value else Ref(n);
        ReadItems(g, name, arg, pos + 1, Add(acc, pending, e), false)
      case FunctionCall(f) =>
        var inner := ReadItems(g, name, arg, pos + 1, [], false);
        if inner.None? || inner.value.1 == |tokens| || f !in g.rules then None
        else
          assert FunctionCall(f) in tokens;
          var e := Group(g, f, inner.value.0);
          if e.None? then None
          else ReadItems(g, name, arg, inner.value.1 + 1, Add(acc, pending, e.value), false)
      case Operator(op) =>
        if op == '(' then
          var inner := ReadItems(g, name, arg, pos + 1, [], false);
          if inner.None? || inner.value.1 == |tokens| then None
          else ReadItems(g, name, arg, inner.value.1 + 1, Add(acc, pending, Seq(inner.value.0)), false)
        else if op == '!' then ReadItems(g, name, arg, pos + 1, acc, pending)
        else if pending || acc == [] then None
        else
          var last := acc[|acc| - 1];
          if op == '/' then ReadItems(g, name, arg, pos + 1, acc, true)
          else if op == '?' then ReadItems(g, name, arg, pos + 1, acc[..|acc| - 1] + [Opt(last)], false)
          else if op == '*' then ReadItems(g, name, arg, pos + 1, acc[..|acc| - 1] + [Opt(Rep(last))], false)
          else None
      case Regex(_) => None
  }

  /** The whole rule, with `arg` for its parameter. */
  ghost function Body(g: Source, name: string, arg: Option<Expr>): (r: Option<Expr>)
    requires g.Valid() && name in g.rules
    ensures r.Some? ==> r.value.Seq?
    decreases g.rank[name], 1, 0
  {
    if |g.rules[name].parameters| != (if arg.Some? then 1 else 0) then None
    else
      var r := ReadItems(g, name, arg, 0, [], false);
      if r.None? || r.value.1 < |g.rules[name].tokens| then None else Some(Seq(r.value.0))
  }

  /** Every rule referred to by `name`, directly or in the functions it calls, is built in or in `names`. */
  ghost predicate MentionsWithin(g: Source, name: string, names: set<string>)
    requires g.Valid() && name in g.rules
    decreases g.rank[name]
  {
    forall t :: t in g.rules[name].tokens ==>
      && (t.Reference? && t.text !in g.rules[name].parameters ==> t.text in names || t.text in g.builtins)
      && (t.FunctionCall? && t.text in g.rules ==> MentionsWithin(g, t.text, names))
  }

  /** The rules in `names` can be built: they are readable and mention only one another. */
  ghost predicate Buildable(g: Source, names: set<string>)
    requires g.Valid()
  {
    forall n :: n in names ==> n in g.rules && Body(g, n, None).Some? && MentionsWithin(g, n, names)
  }

  // ---------- reading with an explicit stack of open brackets ----------

  datatype Frame = Frame(items: seq<Expr>, pending: bool, fn: string)

  ghost predicate FrameOk(f: Frame) {
    f.pending ==> f.items != []
  }

  ghost predicate FramesOk(frames: seq<Frame>) {
    frames != [] && forall i :: 0 <= i < |frames| ==> FrameOk(frames[i])
  }

  /** What a bracket with the given items stands for, in a call of `fn` unless that is empty. */
  ghost function Finished(g: Source, fn: string, items: seq<Expr>): Option<Expr>
    requires g.Valid()
  {
    if fn == "" then Some(Seq(items)) else if fn !in g.rules then None else Group(g, fn, items)
  }

  function AddToLast(frames: seq<Frame>, e: Expr): (r: seq<Frame>)
    requires FramesOk(frames)
    ensures FramesOk(r) && |r| == |frames|
  {
    var f := frames[|frames| - 1];
    frames[..|frames| - 1] + [Frame(Add(f.items, f.pending, e), false, f.fn)]
  }

  /** The reading of a rule of which the brackets in `frames` are open at token `pos`. */
  ghost function Resume(g: Source, name: string, arg: Option<Expr>, frames: seq<Frame>, pos: nat): Option<Expr>
    requires g.Valid() && name in g.rules && pos <= |g.rules[name].tokens| && FramesOk(frames)
    requires g.rules[name].parameters != [] ==> arg.Some?
    decreases |frames|
  {
    var top := frames[|frames| - 1];
    var r := ReadItems(g, name, arg, pos, top.items, top.pending);
    if r.None? then None
    else if |frames| == 1 then if r.value.1 < |g.rules[name].tokens| then None else Some(Seq(r.value.0))
    else if r.value.1 == |g.rules[name].tokens| then None
    else
      var e := Finished(g, top.fn, r.value.0);
      if e.None? then None else Resume(g, name, arg, AddToLast(frames[..|frames| - 1], e.value), r.value.1 + 1)
  }

  /** The new topmost frame after a token that does not open or close a bracket. */
  ghost predicate TopStep(g: Source, name: string, arg: Option<Expr>, top: Frame, pos: nat, next: Frame)
    requires g.Valid() && name in g.rules && pos < |g.rules[name].tokens| && FrameOk(top)
    requires g.rules[name].parameters != [] ==> arg.Some?
  {
    FrameOk(next) && next.fn == top.fn &&
    ReadItems(g, name, arg, pos, top.items, top.pending) == ReadItems(g, name, arg, pos + 1, next.items, next.pending)
  }

  /** Only the items read in the topmost frame matter. */
  lemma ResumeSame(g: Source, name: string, arg: Option<Expr>, frames: seq<Frame>, pos: nat, next: Frame, pos': nat)
    requires g.Valid() && name in g.rules && pos <= |g.rules[name].tokens| && pos' <= |g.rules[name].tokens|
    requires FramesOk(frames) && FrameOk(next) && next.fn == frames[|frames| - 1].fn
    requires g.rules[name].parameters != [] ==> arg.Some?
    requires var top := frames[|frames| - 1];
      ReadItems(g, name, arg, pos, top.items, top.pending) == ReadItems(g, name, arg, pos', next.items, next.pending)
    ensures Resume(g, name, arg, frames, pos) == Resume(g, name, arg, frames[..|frames| - 1] + [next], pos')
  {
    hide ReadItems, Finished;
    var frames' := frames[..|frames| - 1] + [next];
    assert frames'[..|frames'| - 1] == frames[..|frames| - 1];
    assert frames'[|frames'| - 1] == next;
  }

  lemma ResumeTop(g: Source, name: string, arg: Option<Expr>, frames: seq<Frame>, pos: nat, next: Frame)
    requires g.Valid() && name in g.rules && pos < |g.rules[name].tokens| && FramesOk(frames)
    requires g.rules[name].parameters != [] ==> arg.Some?
    requires TopStep(g, name, arg, frames[|frames| - 1], pos, next)
    ensures Resume(g, name, arg, frames, pos) ==
            Resume(g, name, arg, frames[..|frames| - 1] + [next], pos + 1)
  {
    ResumeSame(g, name, arg, frames, pos, next, pos + 1);
  }

  lemma ItemsOpen(g: Source, name: string, arg: Option<Expr>, top: Frame, pos: nat, fn: string)
    requires g.Valid() && name in g.rules && pos < |g.rules[name].tokens| && FrameOk(top)
    requires g.rules[name].parameters != [] ==> arg.Some?
    requires var t := g.rules[name].tokens[pos];
      if fn == "" then t == Operator('(') else t == FunctionCall(fn)
    ensures var inner := ReadItems(g, name, arg, pos + 1, [], false);
      ReadItems(g, name, arg, pos, top.items, top.pending) ==
      if inner.None? || inner.value.1 == |g.rules[name].tokens| then None
      else
        var e := Finished(g, fn, inner.value.0);
        if e.None? then None
        else ReadItems(g, name, arg, inner.value.1 + 1, Add(top.items, top.pending, e.value), false)
  {
  }

  lemma ResumeOpen(g: Source, name: string, arg: Option<Expr>, frames: seq<Frame>, pos: nat, fn: string)
    requires g.Valid() && name in g.rules && pos < |g.rules[name].tokens| && FramesOk(frames)
    requires g.rules[name].parameters != [] ==> arg.Some?
    requires var t := g.rules[name].tokens[pos];
      if fn == "" then t == Operator('(') else t == FunctionCall(fn)
    ensures Resume(g, name, arg, frames, pos) ==
            Resume(g, name, arg, frames + [Frame([], false, fn)], pos + 1)
  {
    hide ReadItems, Finished;
    var frames' := frames + [Frame([], false, fn)];
    assert frames'[..|frames'| - 1] == frames;
    var top := frames[|frames| - 1];
    ItemsOpen(g, name, arg, top, pos, fn);
    var inner := ReadItems(g, name, arg, pos + 1, [], false);
    if inner.Some? && inner.value.1 < |g.rules[name].tokens| {
      var e := Finished(g, fn, inner.value.0);
      if e.Some? {
        var next := Frame(Add(top.items, top.pending, e.value), false, top.fn);
        assert AddToLast(frames, e.value) == frames[..|frames| - 1] + [next];
        ResumeSame(g, name, arg, frames, pos, next, inner.value.1 + 1);
      }
    }
  }

  lemma ResumeClose(g: Source, name: string, arg: Option<Expr>, frames: seq<Frame>, pos: nat)
    requires g.Valid() && name in g.rules && pos < |g.rules[name].tokens| && FramesOk(frames)
    requires g.rules[name].parameters != [] ==> arg.Some?
    requires g.rules[name].tokens[pos] == Operator(')')
    ensures var top := frames[|frames| - 1];
      Resume(g, name, arg, frames, pos) ==
      if top.pending || |frames| == 1 || Finished(g, top.fn, top.items).None? then None
      else Resume(g, name, arg, AddToLast(frames[..|frames| - 1], Finished(g, top.fn, top.items).value), pos + 1)
  {
  }
}
