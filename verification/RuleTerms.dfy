/** Rules as terms: writing terms down as tokens and reading them gives back what the terms say. */
module RuleTerms {
  import opened Options
  import opened MatcherGraph
  import opened Grammar
  import opened RuleReading

  datatype Term =
    | Lit(text: string)
    | Name(text: string)
    | Bracket(terms: seq<Term>)
    | Apply(fn: string, terms: seq<Term>)
    | Either(first: Term, second: Term)
    | Maybe(body: Term)
    | Many(body: Term)

  predicate IsPrimary(t: Term) {
    t.Lit? || t.Name? || t.Bracket? || t.Apply?
  }

  /** The second alternative of '/' is a primary; anything may stand before '/', '?' and '*'. */
  predicate IsTerm(t: Term) {
    match t
    case Lit(_) => true
    case Name(_) => true
    case Bracket(terms) => forall k :: 0 <= k < |terms| ==> IsTerm(terms[k])
    case Apply(fn, terms) => fn != "" && forall k :: 0 <= k < |terms| ==> IsTerm(terms[k])
    case Either(first, second) => IsTerm(first) && IsTerm(second) && IsPrimary(second)
    case Maybe(body) => IsTerm(body)
    case Many(body) => IsTerm(body)
  }

  predicate AreTerms(ts: seq<Term>) {
    forall k :: 0 <= k < |ts| ==> IsTerm(ts[k])
  }

  function Write(t: Term): (tokens: seq<PegToken>)
    ensures tokens != []
    decreases t
  {
    match t
    case Lit(text) => [Literal(text)]
    case Name(text) => [Reference(text)]
    case Bracket(terms) => [Operator('(')] + WriteAll(terms) + [Operator(')')]
    case Apply(fn, terms) => [FunctionCall(fn)] + WriteAll(terms) + [Operator(')')]
    case Either(first, second) => Write(first) + [Operator('/')] + Write(second)
    case Maybe(body) => Write(body) + [Operator('?')]
    case Many(body) => Write(body) + [Operator('*')]
  }

  function WriteAll(ts: seq<Term>): seq<PegToken>
    decreases ts
  {
    if ts == [] then [] else Write(ts[0]) + WriteAll(ts[1..])
  }

  // ---------- what terms say ----------

  /** What the term stands for in rule `name` with argument `arg`: '?' is an optional, '*' an optional repeat, '/' a
      choice, a bracket a sequence, and a call the body of the function with its argument filled in. */
  ghost function Says(g: Source, name: string, arg: Option<Expr>, t: Term): Option<Expr>
    requires g.Valid() && name in g.rules && (g.rules[name].parameters != [] ==> arg.Some?)
    decreases t
  {
    match t
    case Lit(text) => Some(Word(Keyword(text)))
    case Name(n) => Some(if n in g.rules[name].parameters then arg.value else Ref(n))
    case Bracket(terms) =>
      var items := SayAll(g, name, arg, terms);
      if items.None? then None else Some(Seq(items.value))
    case Apply(f, terms) =>
      var items := SayAll(g, name, arg, terms);
      if items.None? || f !in g.rules then None else Body(g, f, Some(Argument(items.value)))
    case Either(first, second) =>
      var a, b := Says(g, name, arg, first), Says(g, name, arg, second);
      if a.None? || b.None? then None else Some(Alt(a.value, b.value))
    case Maybe(body) =>
      var a := Says(g, name, arg, body);
      if a.None? then None else Some(Opt(a.value))
    case Many(body) =>
      var a := Says(g, name, arg, body);
      if a.None? then None else Some(Opt(Rep(a.value)))
  }

  ghost function SayAll(g: Source, name: string, arg: Option<Expr>, ts: seq<Term>): Option<seq<Expr>>
    requires g.Valid() && name in g.rules && (g.rules[name].parameters != [] ==> arg.Some?)
    decreases ts
  {
    if ts == [] then Some([])
    else
      var a, rest := Says(g, name, arg, ts[0]), SayAll(g, name, arg, ts[1..]);
      if a.None? || rest.None? then None else Some([a.value] + rest.value)
  }

  // ---------- reading what was written ----------

  /** The tokens `ts` stand at `pos` in the rule. */
  predicate IsWritten(g: Source, name: string, pos: nat, ts: seq<PegToken>)
    requires name in g.rules
  {
    pos + |ts| <= |g.rules[name].tokens| && g.rules[name].tokens[pos..pos + |ts|] == ts
  }

  lemma WrittenBoth(g: Source, name: string, pos: nat, ts: seq<PegToken>, us: seq<PegToken>)
    requires name in g.rules && IsWritten(g, name, pos, ts + us)
    ensures IsWritten(g, name, pos, ts) && IsWritten(g, name, pos + |ts|, us)
  {
    var tokens := g.rules[name].tokens;
    assert tokens[pos..pos + |ts|] == tokens[pos..pos + |ts + us|][..|ts|];
    assert tokens[pos + |ts|..pos + |ts + us|] == tokens[pos..pos + |ts + us|][|ts|..];
  }

  lemma WrittenOne(g: Source, name: string, pos: nat, t: PegToken)
    requires name in g.rules && IsWritten(g, name, pos, [t])
    ensures pos < |g.rules[name].tokens| && g.rules[name].tokens[pos] == t
  {
    assert g.rules[name].tokens[pos..pos + 1][0] == t;
  }

  /** The reading goes on at `pos` with one more item, or fails. */
  ghost predicate GoesOn(g: Source, name: string, arg: Option<Expr>, pos: nat, acc: seq<Expr>, pending: bool, end: nat,
                         e: Option<Expr>)
    requires g.Valid() && name in g.rules && (g.rules[name].parameters != [] ==> arg.Some?)
    requires pos <= |g.rules[name].tokens| && (pending ==> acc != [])
  {
    && end <= |g.rules[name].tokens|
    && ReadItems(g, name, arg, pos, acc, pending) ==
       if e.None? then None else ReadItems(g, name, arg, end, Add(acc, pending, e.value), false)
  }

  /** A term is read as one more item; a primary may also be the second alternative of the item before. */
  lemma {:induction false} TermRead(g: Source, name: string, arg: Option<Expr>, pos: nat, acc: seq<Expr>, pending: bool,
                                    t: Term)
    requires g.Valid() && name in g.rules && (g.rules[name].parameters != [] ==> arg.Some?)
    requires IsTerm(t) && IsWritten(g, name, pos, Write(t)) && (pending ==> acc != [] && IsPrimary(t))
    ensures GoesOn(g, name, arg, pos, acc, pending, pos + |Write(t)|, Says(g, name, arg, t))
    decreases t, 1
  {
    hide ReadItems, Body, WriteAll, SayAll, Says, IsWritten, GoesOn;
    match t
    case Lit(text) => WordRead(g, name, arg, pos, acc, pending, Literal(text));
    case Name(n) => WordRead(g, name, arg, pos, acc, pending, Reference(n));
    case Bracket(terms) => BracketRead(g, name, arg, pos, acc, pending, "", terms);
    case Apply(f, terms) => BracketRead(g, name, arg, pos, acc, pending, f, terms);
    case Either(first, second) => EitherRead(g, name, arg, pos, acc, first, second);
    case Maybe(body) => SuffixRead(g, name, arg, pos, acc, body, '?');
    case Many(body) => SuffixRead(g, name, arg, pos, acc, body, '*');
  }

  lemma SaysEither(g: Source, name: string, arg: Option<Expr>, first: Term, second: Term)
    requires g.Valid() && name in g.rules && (g.rules[name].parameters != [] ==> arg.Some?)
    ensures var a, b := Says(g, name, arg, first), Says(g, name, arg, second);
      Says(g, name, arg, Either(first, second)) == if a.None? || b.None? then None else Some(Alt(a.value, b.value))
  {
    hide SayAll, Body;
  }

  lemma {:induction false} EitherRead(g: Source, name: string, arg: Option<Expr>, pos: nat, acc: seq<Expr>,
                                      first: Term, second: Term)
    requires g.Valid() && name in g.rules && (g.rules[name].parameters != [] ==> arg.Some?)
    requires IsTerm(first) && IsTerm(second) && IsPrimary(second)
    requires IsWritten(g, name, pos, Write(first) + [Operator('/')] + Write(second))
    ensures GoesOn(g, name, arg, pos, acc, false, pos + |Write(first)| + 1 + |Write(second)|,
                   Says(g, name, arg, Either(first, second)))
    decreases Either(first, second), 0
  {
    hide ReadItems, Body, Write, Says, IsWritten, IsTerm;
    SaysEither(g, name, arg, first, second);
    EitherWritten(g, name, pos, Write(first), Write(second));
    var a, middle := Says(g, name, arg, first), pos + |Write(first)|;
    TermRead(g, name, arg, pos, acc, false, first);
    if a.Some? {
      OperatorRead(g, name, arg, middle, acc + [a.value], '/');
      TermRead(g, name, arg, middle + 1, acc + [a.value], true, second);
      AddBehind(acc, a.value, Says(g, name, arg, second));
    }
  }

  lemma AddBehind(acc: seq<Expr>, a: Expr, b: Option<Expr>)
    ensures b.Some? ==> Add(acc + [a], true, b.value) == Add(acc, false, Alt(a, b.value))
  {
  }

  lemma EitherWritten(g: Source, name: string, pos: nat, ts: seq<PegToken>, us: seq<PegToken>)
    requires name in g.rules && IsWritten(g, name, pos, ts + [Operator('/')] + us)
    ensures IsWritten(g, name, pos, ts) && IsWritten(g, name, pos + |ts|, [Operator('/')])
    ensures IsWritten(g, name, pos + |ts| + 1, us) && pos + |ts| + 1 + |us| <= |g.rules[name].tokens|
  {
    hide IsWritten;
    assert ts + [Operator('/')] + us == ts + ([Operator('/')] + us);
    WrittenBoth(g, name, pos, ts, [Operator('/')] + us);
    WrittenBoth(g, name, pos + |ts|, [Operator('/')], us);
    WrittenInside(g, name, pos + |ts| + 1, us);
  }

  lemma WrittenInside(g: Source, name: string, pos: nat, ts: seq<PegToken>)
    requires name in g.rules && IsWritten(g, name, pos, ts)
    ensures pos + |ts| <= |g.rules[name].tokens|
  {
  }

  lemma WordRead(g: Source, name: string, arg: Option<Expr>, pos: nat, acc: seq<Expr>, pending: bool, token: PegToken)
    requires g.Valid() && name in g.rules && (g.rules[name].parameters != [] ==> arg.Some?)
    requires (token.Literal? || token.Reference?) && IsWritten(g, name, pos, [token]) && (pending ==> acc != [])
    ensures GoesOn(g, name, arg, pos, acc, pending, pos + 1,
                   Says(g, name, arg, if token.Literal? then Lit(token.text) else Name(token.text)))
  {
    WrittenOne(g, name, pos, token);
  }

  lemma OperatorRead(g: Source, name: string, arg: Option<Expr>, pos: nat, acc: seq<Expr>, op: char)
    requires g.Valid() && name in g.rules && (g.rules[name].parameters != [] ==> arg.Some?)
    requires op in "/?*" && acc != [] && IsWritten(g, name, pos, [Operator(op)])
    ensures pos < |g.rules[name].tokens|
    ensures var init, last := acc[..|acc| - 1], acc[|acc| - 1];
      ReadItems(g, name, arg, pos, acc, false) ==
      if op == '/' then ReadItems(g, name, arg, pos + 1, acc, true)
      else ReadItems(g, name, arg, pos + 1, init + [if op == '?' then Opt(last) else Opt(Rep(last))], false)
  {
    WrittenOne(g, name, pos, Operator(op));
  }

  lemma SaysSuffix(g: Source, name: string, arg: Option<Expr>, body: Term, op: char)
    requires g.Valid() && name in g.rules && (g.rules[name].parameters != [] ==> arg.Some?)
    ensures var a := Says(g, name, arg, body);
      Says(g, name, arg, if op == '?' then Maybe(body) else Many(body)) ==
      if a.None? then None else Some(if op == '?' then Opt(a.value) else Opt(Rep(a.value)))
  {
  }

  lemma SaysBracket(g: Source, name: string, arg: Option<Expr>, fn: string, terms: seq<Term>)
    requires g.Valid() && name in g.rules && (g.rules[name].parameters != [] ==> arg.Some?)
    ensures var items := SayAll(g, name, arg, terms);
      Says(g, name, arg, if fn == "" then Bracket(terms) else Apply(fn, terms)) ==
      if items.None? then None else Finished(g, fn, items.value)
  {
    hide Body, SayAll;
  }

  lemma {:induction false} SuffixRead(g: Source, name: string, arg: Option<Expr>, pos: nat, acc: seq<Expr>, body: Term,
                                      op: char)
    requires g.Valid() && name in g.rules && (g.rules[name].parameters != [] ==> arg.Some?)
    requires IsTerm(body) && (op == '?' || op == '*') && IsWritten(g, name, pos, Write(body) + [Operator(op)])
    ensures GoesOn(g, name, arg, pos, acc, false, pos + |Write(body)| + 1,
                   Says(g, name, arg, if op == '?' then Maybe(body) else Many(body)))
    decreases body, 2
  {
    hide ReadItems, Body, Write, Says, IsWritten, IsTerm;
    SaysSuffix(g, name, arg, body, op);
    var a := Says(g, name, arg, body);
    WrittenBoth(g, name, pos, Write(body), [Operator(op)]);
    TermRead(g, name, arg, pos, acc, false, body);
    WrittenOne(g, name, pos + |Write(body)|, Operator(op));
    if a.Some? {
      OperatorRead(g, name, arg, pos + |Write(body)|, acc + [a.value], op);
      assert (acc + [a.value])[..|acc|] == acc;
    }
  }

  lemma {:induction false} BracketRead(g: Source, name: string, arg: Option<Expr>, pos: nat, acc: seq<Expr>,
                                       pending: bool, fn: string, terms: seq<Term>)
    requires g.Valid() && name in g.rules && (g.rules[name].parameters != [] ==> arg.Some?) && (pending ==> acc != [])
    requires AreTerms(terms)
    requires var open := if fn == "" then Operator('(') else FunctionCall(fn);
      IsWritten(g, name, pos, [open] + WriteAll(terms) + [Operator(')')])
    ensures GoesOn(g, name, arg, pos, acc, pending, pos + |WriteAll(terms)| + 2,
                   Says(g, name, arg, if fn == "" then Bracket(terms) else Apply(fn, terms)))
    decreases terms, 2
  {
    hide ReadItems, Body, WriteAll, SayAll, Says, IsWritten, IsTerm, Finished;
    SaysBracket(g, name, arg, fn, terms);
    var open := if fn == "" then Operator('(') else FunctionCall(fn);
    BracketWritten(g, name, pos, open, WriteAll(terms));
    TermsRead(g, name, arg, pos + 1, [], terms);
    CloseRead(g, name, arg, pos + 1 + |WriteAll(terms)|, Items(g, name, arg, [], terms));
    ItemsOpen(g, name, arg, Frame(acc, pending, fn), pos, fn);
    var items := SayAll(g, name, arg, terms);
    assert items.Some? ==> [] + items.value == items.value;
  }

  lemma BracketWritten(g: Source, name: string, pos: nat, open: PegToken, ts: seq<PegToken>)
    requires name in g.rules && IsWritten(g, name, pos, [open] + ts + [Operator(')')])
    ensures IsWritten(g, name, pos + 1, ts) && pos + 1 + |ts| < |g.rules[name].tokens|
    ensures g.rules[name].tokens[pos] == open && g.rules[name].tokens[pos + 1 + |ts|] == Operator(')')
  {
    hide IsWritten;
    assert [open] + ts + [Operator(')')] == [open] + (ts + [Operator(')')]);
    WrittenBoth(g, name, pos, [open], ts + [Operator(')')]);
    WrittenOne(g, name, pos, open);
    WrittenBoth(g, name, pos + 1, ts, [Operator(')')]);
    WrittenOne(g, name, pos + 1 + |ts|, Operator(')'));
  }

  ghost function Items(g: Source, name: string, arg: Option<Expr>, acc: seq<Expr>, ts: seq<Term>): seq<Expr>
    requires g.Valid() && name in g.rules && (g.rules[name].parameters != [] ==> arg.Some?)
  {
    var items := SayAll(g, name, arg, ts);
    if items.None? then acc else acc + items.value
  }

  lemma CloseRead(g: Source, name: string, arg: Option<Expr>, pos: nat, acc: seq<Expr>)
    requires g.Valid() && name in g.rules && (g.rules[name].parameters != [] ==> arg.Some?)
    requires pos < |g.rules[name].tokens| && g.rules[name].tokens[pos] == Operator(')')
    ensures ReadItems(g, name, arg, pos, acc, false) == Some((acc, pos))
  {
  }

  lemma {:induction false} TermsRead(g: Source, name: string, arg: Option<Expr>, pos: nat, acc: seq<Expr>,
                                     ts: seq<Term>)
    requires g.Valid() && name in g.rules && (g.rules[name].parameters != [] ==> arg.Some?)
    requires AreTerms(ts) && IsWritten(g, name, pos, WriteAll(ts))
    ensures ReadItems(g, name, arg, pos, acc, false) ==
      if SayAll(g, name, arg, ts).None? then None
      else ReadItems(g, name, arg, pos + |WriteAll(ts)|, acc + SayAll(g, name, arg, ts).value, false)
    decreases ts, 1
  {
    hide ReadItems, Body, Write, Says, IsTerm, IsWritten;
    WrittenInside(g, name, pos, WriteAll(ts));
    if ts == [] {
      assert acc + [] == acc;
    } else {
      var a := Says(g, name, arg, ts[0]);
      assert ts[0] in ts;
      WrittenBoth(g, name, pos, Write(ts[0]), WriteAll(ts[1..]));
      TermRead(g, name, arg, pos, acc, false, ts[0]);
      if a.Some? {
        TermsRead(g, name, arg, pos + |Write(ts[0])|, acc + [a.value], ts[1..]);
        var rest := SayAll(g, name, arg, ts[1..]);
        assert rest.Some? ==> acc + [a.value] + rest.value == acc + ([a.value] + rest.value);
      }
    }
  }

  /** A rule written down from terms is read as the sequence of what they say. */
  lemma RuleRead(g: Source, name: string, arg: Option<Expr>, ts: seq<Term>)
    requires g.Valid() && name in g.rules && |g.rules[name].parameters| == (if arg.Some? then 1 else 0)
    requires AreTerms(ts) && g.rules[name].tokens == WriteAll(ts)
    ensures var items := SayAll(g, name, arg, ts);
      Body(g, name, arg) == if items.None? then None else Some(Seq(items.value))
  {
    hide WriteAll, SayAll;
    var n := |g.rules[name].tokens|;
    assert g.rules[name].tokens[0..n] == WriteAll(ts);
    TermsRead(g, name, arg, 0, [], ts);
    var items := SayAll(g, name, arg, ts);
    assert items.Some? ==> [] + items.value == items.value;
  }
}
