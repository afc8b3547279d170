/** However a grammar is laid out, parsing it gives the same rules: tokens with or without blanks between them, literals
    with or without the mark, line breaks where a rule cannot end, comments, blank lines, and with or without a line
    break at the end. */
module GrammarLayout {
  import opened Characters
  import opened Grammar
  import opened GrammarRoundTrip

  // ---------- gaps ----------

  /** Blanks; and where `breaks` are allowed, line breaks and whole comments before them. */
  predicate IsGap(g: string, breaks: bool)
    decreases |g|
  {
    g == "" ||
    if g[0] == '#' then breaks && CommentEnd(g) < |g| && IsGap(g[CommentEnd(g)..], breaks)
    else IsSpace(g[0]) && (breaks || !IsNewline(g[0])) && IsGap(g[1..], breaks)
  }

  /** The first line break, or the end. */
  function CommentEnd(g: string): (e: nat)
    requires g != ""
    ensures 1 <= e <= |g| && (e < |g| ==> IsNewline(g[e])) && forall k :: 1 <= k < e ==> !IsNewline(g[k])
    decreases |g|
  {
    if |g| == 1 || IsNewline(g[1]) then 1 else CommentEnd(g[1..]) + 1
  }

  predicate HasNoNul(s: string) {
    '\0' !in s
  }

  /** What ends a rule: blanks, perhaps a comment, and a line break. */
  predicate IsLineEnd(w: string)
    decreases |w|
  {
    w != "" &&
    if IsNewline(w[0]) then |w| == 1
    else if w[0] == '#' then CommentEnd(w) == |w| - 1
    else IsSpace(w[0]) && IsLineEnd(w[1..])
  }

  /** What ends the text instead: blanks, and perhaps a comment that no line break ends. */
  predicate IsOpenEnd(w: string, breaks: bool)
    decreases |w|
  {
    w == "" ||
    if w[0] == '#' then CommentEnd(w) == |w| || (breaks && IsOpenEnd(w[CommentEnd(w)..], breaks))
    else IsSpace(w[0]) && (breaks || !IsNewline(w[0])) && IsOpenEnd(w[1..], breaks)
  }

  // ---------- layouts ----------

  datatype Placed = Placed(gap: string, token: PegToken, marked: bool)

  function Tokens(body: seq<Placed>): (ts: seq<PegToken>)
    ensures |ts| == |body| && forall k :: 0 <= k < |body| ==> ts[k] == body[k].token
  {
    seq(|body|, k requires 0 <= k < |body| => body[k].token)
  }

  function BodyText(body: seq<Placed>): string {
    if body == [] then "" else body[0].gap + Show(body[0].token, body[0].marked) + BodyText(body[1..])
  }

  /** `behind` is the text behind the rest of the body. A rule may not end, and lines may be broken, before its first
      token, inside brackets, and behind '/'. */
  ghost predicate IsBody(body: seq<Placed>, first: bool, brackets: int, inOr: bool, behind: string)
    decreases |body|
  {
    body == [] ||
    var p := body[0];
    && IsGap(p.gap, first || brackets > 0 || inOr) && HasNoNul(p.gap)
    && TokenOk(p.token) && brackets + Delta(p.token) >= 0
    && IsApart(p.token, p.marked, At(BodyText(body[1..]) + behind, 0))
    && IsBody(body[1..], false, brackets + Delta(p.token), p.token == Operator('/'), behind)
  }

  datatype Laid =
    Laid(before: string, name: string, afterName: string, parameters: seq<string>, afterParameter: string,
         body: seq<Placed>, end: string)
  {
    function Rule(): Rule {
      Grammar.Rule.Rule(parameters, Tokens(body))
    }

    function Parameters(): string {
      if parameters == [] then "" else "(" + parameters[0] + ")" + afterParameter
    }
  }

  function Text(laid: Laid): string {
    laid.before + laid.name + laid.afterName + laid.Parameters() + "<-" + BodyText(laid.body) + laid.end
  }

  ghost predicate IsLaid(laid: Laid, behind: string) {
    && IsRuleName(laid.name) && Complete(laid.Rule())
    && IsGap(laid.before, true) && IsGap(laid.afterName, true) && IsGap(laid.afterParameter, true)
    && HasNoNul(laid.before + laid.afterName + laid.afterParameter + laid.end)
    && IsBody(laid.body, true, 0, false, laid.end + behind)
  }

  function TextOf(all: seq<Laid>): string {
    if all == [] then "" else Text(all[0]) + TextOf(all[1..])
  }

  /** Every rule ends with a line break, but perhaps not the last one; then `trailer` is empty. */
  ghost predicate IsLayout(all: seq<Laid>, trailer: string)
    decreases |all|
  {
    if all == [] then IsOpenEnd(trailer, true) && HasNoNul(trailer)
    else
      && IsLaid(all[0], TextOf(all[1..]) + trailer)
      && if |all| == 1 && IsOpenEnd(all[0].end, false) then trailer == ""
         else IsLineEnd(all[0].end) && IsLayout(all[1..], trailer)
  }

  function RulesOf(all: seq<Laid>): (rs: Listing)
    ensures |rs| == |all| && forall k :: 0 <= k < |all| ==> rs[k] == (all[k].name, all[k].Rule())
  {
    seq(|all|, k requires 0 <= k < |all| => (all[k].name, all[k].Rule()))
  }

  // ---------- parsing gaps ----------

  /** The text from `c` on. */
  ghost predicate IsRest(text: string, c: nat, s: string) {
    c <= |text| && text[c..] == s
  }

  lemma RestBoth(text: string, c: nat, s: string, t: string)
    requires IsRest(text, c, s + t)
    ensures Shows(text, c, s) && IsRest(text, c + |s|, t)
  {
    assert text[c..][..|s|] == s && text[c..][|s|..] == t;
  }

  lemma RestAt(text: string, c: nat, s: string)
    requires IsRest(text, c, s)
    ensures At(text, c) == At(s, 0)
  {
  }

  lemma {:induction false} CommentScanned(text: string, c: nat, w: string)
    requires Shows(text, c, w) && w != "" && HasNoNul(w)
    requires CommentEnd(w) < |w| || c + |w| == |text|
    ensures LineEnd(text, c + 1) == c + CommentEnd(w)
    decreases |w|
  {
    if |w| > 1 {
      ShowsAt(text, c, w, 1);
      assert w[1] in w;
      if !IsNewline(w[1]) {
        assert w == w[..1] + w[1..];
        ShowsBoth(text, c, w[..1], w[1..]);
        CommentScanned(text, c + 1, w[1..]);
      }
    }
  }

  /** A line break does not end a rule where `s` is. */
  predicate IsOpen(s: State) {
    s.phase != RuleDefinition || s.brackets > 0 || s.inOr || s.rule.tokens == []
  }

  function GapStep(g: string): (n: nat)
    requires g != ""
    ensures 1 <= n <= |g|
  {
    if g[0] == '#' then CommentEnd(g) else 1
  }

  lemma FirstShown(text: string, c: nat, w: string)
    requires Shows(text, c, w) && w != "" && HasNoNul(w)
    ensures c < |text| && text[c] == w[0] != '\0'
  {
    ShowsAt(text, c, w, 0);
    assert w[0] in w;
  }

  lemma CommentStep(text: string, s: State)
    requires s.c < |text| && text[s.c] == '#'
    ensures Step(text, s) == Ok(s.(c := LineEnd(text, s.c + 1)))
  {
  }

  lemma BlankStep(text: string, s: State)
    requires s.c < |text| && IsSpace(text[s.c]) && (IsNewline(text[s.c]) ==> IsOpen(s))
    ensures text[s.c] != '\0' && Step(text, s) == Ok(s.(c := s.c + 1))
  {
  }

  /** Blanks and comments are passed over, and so are line breaks that end no rule. */
  lemma SkipStep(text: string, s: State, w: string)
    requires Shows(text, s.c, w) && w != "" && HasNoNul(w)
    requires if w[0] == '#' then CommentEnd(w) < |w| || s.c + |w| == |text|
             else IsSpace(w[0]) && (IsNewline(w[0]) ==> IsOpen(s))
    ensures s.c < |text| && text[s.c] != '\0' && Step(text, s) == Ok(s.(c := s.c + GapStep(w)))
  {
    hide Shows, Step, HasNoNul, LineEnd, CommentEnd, IsOpen, IsSpace;
    FirstShown(text, s.c, w);
    if w[0] == '#' {
      CommentScanned(text, s.c, w);
      CommentStep(text, s);
    } else {
      BlankStep(text, s);
    }
  }

  lemma GapStepParsed(text: string, s: State, g: string)
    requires Shows(text, s.c, g) && IsGap(g, IsOpen(s)) && HasNoNul(g) && g != ""
    ensures s.c < |text| && text[s.c] != '\0' && Step(text, s) == Ok(s.(c := s.c + GapStep(g)))
    ensures IsGap(g[GapStep(g)..], IsOpen(s))
  {
    hide Shows, Step, HasNoNul;
    SkipStep(text, s, g);
  }

  lemma {:induction false} GapParsed(text: string, s: State, g: string)
    requires Shows(text, s.c, g) && IsGap(g, IsOpen(s)) && HasNoNul(g)
    ensures ParseFrom(text, s) == ParseFrom(text, s.(c := s.c + |g|))
    decreases |g|
  {
    hide ParseFrom, Shows, Step, IsGap, GapStep;
    if g != "" {
      var n := GapStep(g);
      GapStepParsed(text, s, g);
      assert g == g[..n] + g[n..];
      ShowsBoth(text, s.c, g[..n], g[n..]);
      StepParsed(text, s, s.(c := s.c + n));
      GapParsed(text, s.(c := s.c + n), g[n..]);
    }
  }

  // ---------- parsing bodies ----------

  /** The state behind the tokens `ts` that end at `c`. */
  ghost function Behind(s: State, ts: seq<PegToken>, c: nat): State
    requires s.brackets + Depth(ts) >= 0
  {
    s.(c := c, rule := s.rule.(tokens := s.rule.tokens + ts), brackets := s.brackets + Depth(ts),
       inOr := if ts == [] then s.inOr else EndsInOr(ts))
  }

  lemma ShownParsed(text: string, s: State, t: PegToken, marked: bool, e: nat)
    requires s.phase == RuleDefinition && TokenAt(text, s.(inOr := false), t, marked, e)
    ensures ParseFrom(text, s) == ParseFrom(text, AfterToken(s, t, e))
  {
    hide ParseFrom, TokenStep, TokenAt, Show;
    TokenParsed(text, s.(inOr := false), t, marked, e);
    StepParsed(text, s, AfterToken(s, t, e));
  }

  lemma PlacedParsed(text: string, s: State, p: Placed, rest: string)
    requires s.phase == RuleDefinition && IsRest(text, s.c, p.gap + Show(p.token, p.marked) + rest)
    requires IsGap(p.gap, IsOpen(s)) && HasNoNul(p.gap) && TokenOk(p.token) && s.brackets + Delta(p.token) >= 0
    requires IsApart(p.token, p.marked, At(rest, 0))
    ensures var e := s.c + |p.gap| + |Show(p.token, p.marked)|;
      ParseFrom(text, s) == ParseFrom(text, AfterToken(s, p.token, e)) && IsRest(text, e, rest)
  {
    hide ParseFrom, Shows, IsRest, IsGap, Show, TokenOk, IsApart, At;
    var shown := Show(p.token, p.marked);
    var e := s.c + |p.gap| + |shown|;
    assert p.gap + shown + rest == p.gap + (shown + rest);
    RestBoth(text, s.c, p.gap, shown + rest);
    RestBoth(text, s.c + |p.gap|, shown, rest);
    RestAt(text, e, rest);
    GapParsed(text, s, p.gap);
    ShownParsed(text, s.(c := s.c + |p.gap|), p.token, p.marked, e);
  }

  lemma BehindCons(s: State, t: PegToken, ts: seq<PegToken>, e: nat, c: nat)
    requires s.brackets + Delta(t) >= 0 && s.brackets + Delta(t) + Depth(ts) >= 0
    ensures s.brackets + Depth([t] + ts) >= 0
    ensures Behind(AfterToken(s, t, e), ts, c) == Behind(s, [t] + ts, c)
  {
    DepthCons(t, ts);
    assert (s.rule.tokens + [t]) + ts == s.rule.tokens + ([t] + ts);
    assert ts != [] ==> ([t] + ts)[|ts|] == ts[|ts| - 1];
  }

  lemma {:induction false} BodyDepth(body: seq<Placed>, first: bool, brackets: int, inOr: bool, behind: string)
    requires IsBody(body, first, brackets, inOr, behind) && brackets >= 0
    ensures brackets + Depth(Tokens(body)) >= 0
    decreases |body|
  {
    if body != [] {
      var p := body[0];
      BodyDepth(body[1..], false, brackets + Delta(p.token), p.token == Operator('/'), behind);
      DepthCons(p.token, Tokens(body[1..]));
      assert Tokens(body) == [p.token] + Tokens(body[1..]);
    }
  }

  lemma FirstParsed(text: string, s: State, body: seq<Placed>, behind: string)
    requires s.phase == RuleDefinition && IsRest(text, s.c, BodyText(body) + behind) && body != []
    requires IsBody(body, s.rule.tokens == [], s.brackets, s.inOr, behind)
    ensures var p := body[0];
      var e := s.c + |p.gap| + |Show(p.token, p.marked)|;
      && s.brackets + Delta(p.token) >= 0
      && |BodyText(body)| == e - s.c + |BodyText(body[1..])|
      && ParseFrom(text, s) == ParseFrom(text, AfterToken(s, p.token, e))
      && IsRest(text, e, BodyText(body[1..]) + behind)
      && IsBody(body[1..], false, s.brackets + Delta(p.token), p.token == Operator('/'), behind)
  {
    hide ParseFrom, IsRest, TokenStep, IsGap, Show, TokenOk, IsApart;
    var p, rest := body[0], BodyText(body[1..]) + behind;
    assert BodyText(body) + behind == p.gap + Show(p.token, p.marked) + rest;
    PlacedParsed(text, s, p, rest);
  }

  lemma {:induction false} BodyParsed(text: string, s: State, body: seq<Placed>, behind: string)
    requires s.phase == RuleDefinition && IsRest(text, s.c, BodyText(body) + behind)
    requires IsBody(body, s.rule.tokens == [], s.brackets, s.inOr, behind)
    ensures s.brackets + Depth(Tokens(body)) >= 0
    ensures var c := s.c + |BodyText(body)|;
      ParseFrom(text, s) == ParseFrom(text, Behind(s, Tokens(body), c)) && IsRest(text, c, behind)
    decreases |body|
  {
    hide ParseFrom, IsRest, Depth, Behind, Show, Delta;
    if body == [] {
      NoTokens(text, s, behind);
    } else {
      BodyDepth(body, s.rule.tokens == [], s.brackets, s.inOr, behind);
      FirstParsed(text, s, body, behind);
      hide IsBody, BodyText;
      var p, ts := body[0], Tokens(body[1..]);
      var e := s.c + |p.gap| + |Show(p.token, p.marked)|;
      BodyParsed(text, AfterToken(s, p.token, e), body[1..], behind);
      assert Tokens(body) == [p.token] + ts;
      BehindCons(s, p.token, ts, e, s.c + |BodyText(body)|);
    }
  }

  lemma NoTokens(text: string, s: State, behind: string)
    requires IsRest(text, s.c, "" + behind)
    ensures Depth(Tokens([])) == 0 && Behind(s, Tokens([]), s.c) == s && IsRest(text, s.c, behind)
  {
    assert Tokens([]) == [];
    assert s.rule.tokens + [] == s.rule.tokens;
    assert "" + behind == behind;
  }

  // ---------- parsing headers and ends ----------

  /** A gap, and then the rest. */
  lemma GapThen(text: string, s: State, g: string, rest: string)
    requires IsRest(text, s.c, g + rest) && IsGap(g, IsOpen(s)) && HasNoNul(g)
    ensures ParseFrom(text, s) == ParseFrom(text, s.(c := s.c + |g|)) && IsRest(text, s.c + |g|, rest)
  {
    hide ParseFrom, IsRest, IsGap;
    RestBoth(text, s.c, g, rest);
    GapParsed(text, s, g);
  }

  predicate IsBehindName(rest: string) {
    rest != "" && !IsAlphaNumeric(rest[0])
  }

  lemma NameThen(text: string, s: State, name: string, rest: string)
    requires s.phase == RuleName && IsRuleName(name) && IsRest(text, s.c, name + rest) && IsBehindName(rest)
    ensures var t := s.(c := s.c + |name|, name := name, rule := Rule([], []), phase := RuleSeparator);
      ParseFrom(text, s) == ParseFrom(text, t) && IsRest(text, s.c + |name|, rest)
  {
    RestBoth(text, s.c, name, rest);
    assert text[s.c + |name|..][0] == rest[0];
    hide ParseFrom, IsRest, Step;
    NameParsed(text, s, name);
    StepParsed(text, s, s.(c := s.c + |name|, name := name, rule := Rule([], []), phase := RuleSeparator));
  }

  lemma ParametersThen(text: string, s: State, laid: Laid, rest: string)
    requires s.phase == RuleSeparator && s.rule == Rule([], []) && IsRest(text, s.c, laid.Parameters() + rest)
    requires |laid.parameters| <= 1 && (forall p :: p in laid.parameters ==> IsWord(p))
    requires IsGap(laid.afterParameter, true) && HasNoNul(laid.afterParameter)
    ensures var t := s.(c := s.c + |laid.Parameters()|, rule := Rule(laid.parameters, []));
      ParseFrom(text, s) == ParseFrom(text, t) && IsRest(text, s.c + |laid.Parameters()|, rest)
  {
    hide ParseFrom, IsRest, Step, IsGap, Shows;
    if laid.parameters == [] {
      assert laid.Parameters() + rest == rest;
    } else {
      var p := laid.parameters[0];
      var shown := "(" + p + ")";
      assert laid.Parameters() + rest == shown + (laid.afterParameter + rest);
      RestBoth(text, s.c, shown, laid.afterParameter + rest);
      ParameterParsed(text, s, p);
      assert laid.parameters == [p];
      var t := s.(c := s.c + |shown|, rule := Rule([p], []));
      ShowsAt(text, s.c, shown, 0);
      StepParsed(text, s, t);
      GapThen(text, t, laid.afterParameter, rest);
    }
  }

  lemma ArrowThen(text: string, s: State, rest: string)
    requires s.phase == RuleSeparator && IsRest(text, s.c, "<-" + rest)
    ensures var t := s.(c := s.c + 2, phase := RuleDefinition);
      ParseFrom(text, s) == ParseFrom(text, t) && IsRest(text, s.c + 2, rest)
  {
    RestBoth(text, s.c, "<-", rest);
    ShowsAt(text, s.c, "<-", 0);
    ShowsAt(text, s.c, "<-", 1);
    hide ParseFrom, IsRest, Shows;
    StepParsed(text, s, s.(c := s.c + 2, phase := RuleDefinition));
  }

  function HeaderLength(laid: Laid): nat {
    |laid.before| + |laid.name| + |laid.afterName| + |laid.Parameters()| + 2
  }

  /** The state in which the body of the rule begins. */
  function InBody(c: nat, rules: Rules, laid: Laid): State {
    State(c, RuleDefinition, laid.name, Rule(laid.parameters, []), 0, false, rules)
  }

  /** The state behind the name. */
  function Named(c: nat, rules: Rules, name: string): State {
    State(c, RuleSeparator, name, Rule([], []), 0, false, rules)
  }

  lemma NamedThen(text: string, c: nat, rules: Rules, laid: Laid, rest: string)
    requires IsGap(laid.before, true) && HasNoNul(laid.before)
    requires IsGap(laid.afterName, true) && HasNoNul(laid.afterName)
    requires IsRuleName(laid.name) && IsBehindName(laid.afterName + rest)
    requires IsRest(text, c, laid.before + (laid.name + (laid.afterName + rest)))
    ensures var e := c + |laid.before| + |laid.name| + |laid.afterName|;
      ParseFrom(text, Between(c, rules)) == ParseFrom(text, Named(e, rules, laid.name)) && IsRest(text, e, rest)
  {
    hide ParseFrom, IsRest, IsGap, HasNoNul, IsRuleName, IsBehindName;
    var s0 := Between(c, rules);
    GapThen(text, s0, laid.before, laid.name + (laid.afterName + rest));
    NameThen(text, s0.(c := c + |laid.before|), laid.name, laid.afterName + rest);
    GapThen(text, Named(c + |laid.before| + |laid.name|, rules, laid.name), laid.afterName, rest);
  }

  lemma HeaderThen(text: string, c: nat, rules: Rules, laid: Laid, behind: string, rest: string)
    requires IsLaid(laid, behind)
    requires IsRest(text, c, laid.before + (laid.name + (laid.afterName + (laid.Parameters() + ("<-" + rest)))))
    ensures ParseFrom(text, Between(c, rules)) == ParseFrom(text, InBody(c + HeaderLength(laid), rules, laid))
    ensures IsRest(text, c + HeaderLength(laid), rest)
  {
    hide ParseFrom, IsRest, IsGap, IsLaid, HasNoNul, Laid.Parameters, IsRuleName, IsBehindName, Named, InBody;
    HeaderParts(laid, behind);
    BehindName(laid, rest);
    NamedThen(text, c, rules, laid, laid.Parameters() + ("<-" + rest));
    DefinitionThen(text, c + |laid.before| + |laid.name| + |laid.afterName|, rules, laid, rest);
  }

  lemma DefinitionThen(text: string, e: nat, rules: Rules, laid: Laid, rest: string)
    requires IsRest(text, e, laid.Parameters() + ("<-" + rest))
    requires |laid.parameters| <= 1 && (forall p :: p in laid.parameters ==> IsWord(p))
    requires IsGap(laid.afterParameter, true) && HasNoNul(laid.afterParameter)
    ensures var c := e + |laid.Parameters()| + 2;
      ParseFrom(text, Named(e, rules, laid.name)) == ParseFrom(text, InBody(c, rules, laid)) && IsRest(text, c, rest)
  {
    hide ParseFrom, IsRest, IsGap, HasNoNul, Laid.Parameters;
    var s := Named(e, rules, laid.name);
    ParametersThen(text, s, laid, "<-" + rest);
    ArrowThen(text, s.(c := e + |laid.Parameters()|, rule := Rule(laid.parameters, [])), rest);
  }

  lemma HeaderParts(laid: Laid, behind: string)
    requires IsLaid(laid, behind)
    ensures IsRuleName(laid.name) && |laid.parameters| <= 1 && (forall p :: p in laid.parameters ==> IsWord(p))
    ensures IsGap(laid.before, true) && IsGap(laid.afterName, true) && IsGap(laid.afterParameter, true)
    ensures HasNoNul(laid.before) && HasNoNul(laid.afterName) && HasNoNul(laid.afterParameter) && HasNoNul(laid.end)
  {
    hide IsGap, IsBody, IsRuleName;
  }

  lemma BehindName(laid: Laid, rest: string)
    requires IsGap(laid.afterName, true)
    ensures IsBehindName(laid.afterName + (laid.Parameters() + ("<-" + rest)))
  {
    var all := laid.afterName + (laid.Parameters() + ("<-" + rest));
    assert laid.afterName == "" && laid.parameters == [] ==> all[0] == '<';
    assert laid.afterName == "" && laid.parameters != [] ==> all[0] == '(';
    assert laid.afterName != "" ==> all[0] == laid.afterName[0];
  }

  /** All of the rule has been read. */
  predicate IsWhole(s: State) {
    s.phase == RuleDefinition && s.brackets == 0 && !s.inOr && s.rule.tokens != []
  }

  /** One step towards the line break. */
  lemma LineEndStep(text: string, s: State, w: string)
    requires IsWhole(s) && Shows(text, s.c, w) && IsLineEnd(w) && HasNoNul(w)
    ensures s.c < |text| && text[s.c] != '\0'
    ensures Step(text, s) == if IsNewline(w[0]) then Stored(s, s.c + 1) else Ok(s.(c := s.c + GapStep(w)))
    ensures if IsNewline(w[0]) then |w| == 1 else IsLineEnd(w[GapStep(w)..])
  {
    if IsNewline(w[0]) {
      BreakStep(text, s, w);
    } else {
      hide Shows, Step, HasNoNul;
      SkipStep(text, s, w);
    }
  }

  lemma BreakStep(text: string, s: State, w: string)
    requires IsWhole(s) && Shows(text, s.c, w) && w != "" && IsNewline(w[0])
    ensures s.c < |text| && text[s.c] != '\0'
    ensures Step(text, s) == Stored(s, s.c + 1)
  {
    ShowsAt(text, s.c, w, 0);
    hide Shows, LineEnd, TokenStep;
  }

  lemma {:induction false} LineEndThen(text: string, s: State, w: string, rest: string)
    requires IsWhole(s) && IsRest(text, s.c, w + rest) && IsLineEnd(w) && HasNoNul(w)
    ensures ParseFrom(text, s) ==
      if s.name in s.rules then Err(DuplicateRule(s.name))
      else ParseFrom(text, Between(s.c + |w|, s.rules[s.name := s.rule]))
    ensures IsRest(text, s.c + |w|, rest)
    decreases |w|
  {
    hide ParseFrom, IsRest, Shows, IsLineEnd, Step, GapStep;
    RestBoth(text, s.c, w, rest);
    LineEndStep(text, s, w);
    if IsNewline(w[0]) {
      StepEither(text, s);
    } else {
      var n := GapStep(w);
      StepParsed(text, s, s.(c := s.c + n));
      assert w + rest == w[..n] + (w[n..] + rest);
      RestBoth(text, s.c, w[..n], w[n..] + rest);
      LineEndThen(text, s.(c := s.c + n), w[n..], rest);
    }
  }

  lemma StepEither(text: string, s: State)
    requires s.c < |text| && text[s.c] != '\0'
    ensures var r := Step(text, s); ParseFrom(text, s) == if r.Err? then Err(r.error) else ParseFrom(text, r.value)
  {
    hide Step;
  }

  lemma OpenEndStep(text: string, s: State, w: string, breaks: bool)
    requires IsRest(text, s.c, w) && IsOpenEnd(w, breaks) && HasNoNul(w) && (breaks ==> IsOpen(s)) && w != ""
    ensures s.c < |text| && text[s.c] != '\0' && Step(text, s) == Ok(s.(c := s.c + GapStep(w)))
    ensures IsOpenEnd(w[GapStep(w)..], breaks)
  {
    assert w == w + "";
    RestBoth(text, s.c, w, "");
    assert s.c + |w| == |text|;
    hide Shows, IsRest, Step, HasNoNul;
    SkipStep(text, s, w);
    assert CommentEnd(w) == |w| ==> w[CommentEnd(w)..] == "";
  }

  lemma EndsHere(text: string, s: State)
    requires IsRest(text, s.c, "")
    ensures ParseFrom(text, s) == Finish(s)
  {
    assert s.c == |text|;
  }

  /** At the end of the text a rule needs no line break. */
  lemma {:induction false} OpenEndThen(text: string, s: State, w: string, breaks: bool)
    requires IsRest(text, s.c, w) && IsOpenEnd(w, breaks) && HasNoNul(w) && (breaks ==> IsOpen(s))
    ensures ParseFrom(text, s) == Finish(s)
    decreases |w|
  {
    hide ParseFrom, IsRest, IsOpenEnd, Step, GapStep;
    if w == "" {
      EndsHere(text, s);
    } else {
      OpenEndStep(text, s, w, breaks);
      var n := GapStep(w);
      StepParsed(text, s, s.(c := s.c + n));
      assert w == w[..n] + w[n..];
      RestBoth(text, s.c, w[..n], w[n..]);
      OpenEndThen(text, s.(c := s.c + n), w[n..], breaks);
    }
  }

  // ---------- parsing layouts ----------

  /** The state behind the body of the rule. */
  function AtEnd(c: nat, rules: Rules, laid: Laid): State {
    State(c, RuleDefinition, laid.name, laid.Rule(), 0, false, rules)
  }

  /** A rule up to what ends it. */
  lemma RuleThen(text: string, c: nat, rules: Rules, laid: Laid, behind: string)
    requires IsLaid(laid, behind) && IsRest(text, c, Text(laid) + behind)
    ensures var e := c + HeaderLength(laid) + |BodyText(laid.body)|;
      ParseFrom(text, Between(c, rules)) == ParseFrom(text, AtEnd(e, rules, laid)) && IsRest(text, e, laid.end + behind)
  {
    hide ParseFrom, IsRest, IsGap, HasNoNul, Laid.Parameters, IsRuleName, BodyText, IsBody, RuleOk;
    var rest := BodyText(laid.body) + (laid.end + behind);
    assert Text(laid) + behind ==
           laid.before + (laid.name + (laid.afterName + (laid.Parameters() + ("<-" + rest))));
    HeaderThen(text, c, rules, laid, behind, rest);
    var s := InBody(c + HeaderLength(laid), rules, laid);
    BodyParsed(text, s, laid.body, laid.end + behind);
    WholeBody(s, laid, behind);
  }

  lemma WholeBody(s: State, laid: Laid, behind: string)
    requires IsLaid(laid, behind) && s == InBody(s.c, s.rules, laid)
    ensures forall c :: Behind(s, Tokens(laid.body), c) == AtEnd(c, s.rules, laid)
  {
    hide IsGap, HasNoNul, IsRuleName, IsBody, RuleOk, Depth;
    assert [] + Tokens(laid.body) == Tokens(laid.body);
  }

  lemma LengthOf(laid: Laid)
    ensures |Text(laid)| == HeaderLength(laid) + |BodyText(laid.body)| + |laid.end|
  {
    hide BodyText;
  }

  lemma CompleteIsWhole(c: nat, rules: Rules, laid: Laid, behind: string)
    requires IsLaid(laid, behind)
    ensures IsWhole(AtEnd(c, rules, laid)) && HasNoNul(laid.end)
  {
    HeaderParts(laid, behind);
    hide IsGap, HasNoNul, IsRuleName, IsBody, RuleOk, Depth;
  }

  /** The rules one after the other; a name that is stored already is an error. */
  function StoreAll(rules: Rules, rs: Listing): Result<Rules>
    decreases |rs|
  {
    if rs == [] then Ok(rules)
    else if rs[0].0 in rules then Err(DuplicateRule(rs[0].0))
    else StoreAll(rules[rs[0].0 := rs[0].1], rs[1..])
  }

  lemma {:induction false} StoresAll(rules: Rules, rs: Listing)
    requires forall i :: 0 <= i < |rs| ==> rs[i].0 !in rules
    requires forall i, j :: 0 <= i < j < |rs| ==> rs[i].0 != rs[j].0
    ensures StoreAll(rules, rs) == Ok(AddAll(rules, rs))
    decreases |rs|
  {
    if rs != [] {
      StoresAll(rules[rs[0].0 := rs[0].1], rs[1..]);
    }
  }

  /** A rule is stored where it ends. */
  function Stored(s: State, c: nat): Result<State> {
    if s.name in s.rules then Err(DuplicateRule(s.name)) else Ok(Between(c, s.rules[s.name := s.rule]))
  }

  lemma {:induction false} LayoutFrom(text: string, c: nat, rules: Rules, all: seq<Laid>, trailer: string)
    requires IsLayout(all, trailer) && IsRest(text, c, TextOf(all) + trailer)
    ensures ParseFrom(text, Between(c, rules)) == StoreAll(rules, RulesOf(all))
    decreases |all|
  {
    hide ParseFrom, IsRest, IsLaid, Text, IsLineEnd, IsOpenEnd;
    if all == [] {
      assert "" + trailer == trailer;
      OpenEndThen(text, Between(c, rules), trailer, true);
    } else {
      var laid, behind := all[0], TextOf(all[1..]) + trailer;
      assert TextOf(all) + trailer == Text(laid) + behind;
      RuleThen(text, c, rules, laid, behind);
      LengthOf(laid);
      var e := c + HeaderLength(laid) + |BodyText(laid.body)|;
      var s := AtEnd(e, rules, laid);
      CompleteIsWhole(e, rules, laid, behind);
      assert RulesOf(all)[1..] == RulesOf(all[1..]);
      if |all| == 1 && IsOpenEnd(laid.end, false) {
        assert TextOf([]) + trailer == "" && laid.end + "" == laid.end;
        assert all[1..] == [];
        OpenEndThen(text, s, laid.end, false);
      } else {
        LineEndThen(text, s, laid.end, behind);
        if laid.name !in rules {
          LayoutFrom(text, e + |laid.end|, rules[laid.name := laid.Rule()], all[1..], trailer);
        }
      }
    }
  }

  /** Every layout of rules is parsed to just these rules, or to an error at the first name that comes again. */
  lemma ParseLayout(all: seq<Laid>, trailer: string)
    requires IsLayout(all, trailer)
    ensures Parse(TextOf(all) + trailer) == StoreAll(map[], RulesOf(all))
  {
    hide IsLayout, ParseFrom;
    var text := TextOf(all) + trailer;
    assert text[0..] == text;
    LayoutFrom(text, 0, map[], all, trailer);
  }

  // ---------- the printer's layout ----------

  function Placing(ts: seq<PegToken>): (body: seq<Placed>)
    ensures |body| == |ts| && Tokens(body) == ts
  {
    seq(|ts|, k requires 0 <= k < |ts| => Placed(" ", ts[k], true))
  }

  lemma {:induction false} PlacingText(ts: seq<PegToken>)
    ensures BodyText(Placing(ts)) == PrintTokens(ts)
    decreases |ts|
  {
    hide Show;
    if ts != [] {
      assert Placing(ts)[1..] == Placing(ts[1..]);
      PlacingText(ts[1..]);
    }
  }

  /** From bracket depth `brackets` the tokens never close more than is open. */
  ghost predicate StaysOpen(brackets: int, ts: seq<PegToken>) {
    forall k :: 0 <= k <= |ts| ==> brackets + Depth(ts[..k]) >= 0
  }

  lemma StaysOpenRest(brackets: int, t: PegToken, rest: seq<PegToken>)
    requires StaysOpen(brackets, [t] + rest)
    ensures brackets + Delta(t) >= 0 && StaysOpen(brackets + Delta(t), rest)
  {
    assert ([t] + rest)[..1] == [t] && [t][..0] == [];
    assert Depth([t]) == Delta(t);
    assert brackets + Depth(([t] + rest)[..1]) >= 0;
    forall k | 0 <= k <= |rest| ensures brackets + Delta(t) + Depth(rest[..k]) >= 0 {
      assert ([t] + rest)[..k + 1] == [t] + rest[..k];
      DepthCons(t, rest[..k]);
    }
  }

  lemma {:induction false} PlacingIsBody(ts: seq<PegToken>, first: bool, brackets: int, inOr: bool, behind: string)
    requires (forall t :: t in ts ==> TokenOk(t)) && StaysOpen(brackets, ts)
    ensures IsBody(Placing(ts), first, brackets, inOr, "\n" + behind)
    decreases |ts|
  {
    hide TokenOk, Depth, Show;
    if ts != [] {
      var p, rest := Placing(ts)[0], Placing(ts)[1..];
      assert rest == Placing(ts[1..]) && ts == [ts[0]] + ts[1..];
      StaysOpenRest(brackets, ts[0], ts[1..]);
      PlacingIsBody(ts[1..], false, brackets + Delta(ts[0]), ts[0] == Operator('/'), behind);
      assert IsGap("", true) && IsGap(" ", first || brackets > 0 || inOr);
      var follows := BodyText(rest) + ("\n" + behind);
      assert rest != [] ==> follows[0] == rest[0].gap[0] == ' ';
      assert rest == [] ==> follows[0] == '\n';
    }
  }

  function Standard(name: string, rule: Rule): Laid {
    if rule.parameters == [] then Laid("", name, " ", [], "", Placing(rule.tokens), "\n")
    else Laid("", name, "", rule.parameters, " ", Placing(rule.tokens), "\n")
  }

  lemma StandardText(name: string, rule: Rule)
    requires |rule.parameters| <= 1
    ensures Text(Standard(name, rule)) == PrintRule(name, rule) && Standard(name, rule).Rule() == rule
  {
    PlacingText(rule.tokens);
    var laid := Standard(name, rule);
    assert rule.parameters != [] ==> laid.Parameters() + "<-" == PrintParameters(rule.parameters) + " <-";
    hide BodyText, PrintTokens;
  }

  lemma StandardIsLaid(name: string, rule: Rule, behind: string)
    requires IsRuleName(name) && Complete(rule)
    ensures IsLaid(Standard(name, rule), behind) && IsLineEnd("\n")
  {
    assert StaysOpen(0, rule.tokens);
    StandardText(name, rule);
    PlacingIsBody(rule.tokens, true, 0, false, behind);
    assert IsGap("", true) && IsGap(" ", true);
    hide IsBody, Text, Depth, IsRuleName;
  }

  lemma {:induction false} StandardLayout(rs: Listing) returns (all: seq<Laid>)
    requires ListingOk(rs)
    ensures IsLayout(all, "") && TextOf(all) == PrintRules(rs) && RulesOf(all) == rs
    decreases |rs|
  {
    hide IsLaid, Text, IsLineEnd, IsOpenEnd, PrintRule, Standard, Complete;
    if rs == [] {
      all := [];
      NothingOpen();
    } else {
      var (name, rule) := rs[0];
      var rest := StandardLayout(rs[1..]);
      var laid := Standard(name, rule);
      AtMostOne(rule);
      StandardText(name, rule);
      StandardIsLaid(name, rule, TextOf(rest) + "");
      StandardEnd(name, rule);
      all := [laid] + rest;
      assert all[1..] == rest;
    }
  }

  lemma NothingOpen()
    ensures IsOpenEnd("", true) && HasNoNul("")
  {
  }

  lemma AtMostOne(rule: Rule)
    requires Complete(rule)
    ensures |rule.parameters| <= 1
  {
  }

  lemma StandardEnd(name: string, rule: Rule)
    ensures Standard(name, rule).end == "\n" && Standard(name, rule).name == name && !IsOpenEnd("\n", false)
  {
  }

  /** Parsing undoes printing. */
  lemma ParsePrint(rs: Listing)
    requires ListingOk(rs)
    ensures Parse(PrintRules(rs)) == Ok(AddAll(map[], rs))
  {
    hide IsLayout, Parse;
    var all := StandardLayout(rs);
    ParseLayout(all, "");
    assert TextOf(all) + "" == TextOf(all);
    StoresAll(map[], rs);
  }
}
