/** Printing rules and parsing them back gives the same rules, and every rule the parser accepts can be printed. */
module GrammarRoundTrip {
  import opened Characters
  import opened Grammar

  // ---------- which rules can be written down ----------

  ghost predicate IsWord(s: string) {
    s != "" && forall i :: 0 <= i < |s| ==> IsAlphaNumeric(s[i])
  }

  ghost predicate IsRuleName(s: string) {
    s != "" && (s[0] == '%' || IsAlphaNumeric(s[0])) && forall i :: 1 <= i < |s| ==> IsAlphaNumeric(s[i])
  }

  /** Literal contents: every quote is escaped and no escape is cut off. */
  ghost predicate IsLiteralBody(s: string) {
    s == "" ||
    (if s[0] == '\\' then |s| >= 2 && IsLiteralBody(s[2..])
     else s[0] != '\'' && s[0] != '\0' && IsLiteralBody(s[1..]))
  }

  /** Regular expression text up to its closing bracket, which does not occur in it unescaped. */
  ghost predicate IsRegexBody(s: string, close: char) {
    s == "" ||
    (if s[0] == '\\' then |s| >= 2 && s[1] != '\0' && IsRegexBody(s[2..], close)
     else s[0] != close && s[0] != '\0' && IsRegexBody(s[1..], close))
  }

  function CloseOf(open: char): char {
    if open == '[' then ']' else '>'
  }

  ghost predicate TokenOk(t: PegToken) {
    match t
    case Literal(text) => IsLiteralBody(text)
    case Reference(text) => IsWord(text)
    case Operator(op) => IsPegOperator(op)
    case FunctionCall(text) => IsWord(text)
    case Regex(text) =>
      && |text| >= 2 && (text[0] == '[' || text[0] == '<')
      && text[|text| - 1] == CloseOf(text[0]) && IsRegexBody(text[..|text| - 1], CloseOf(text[0]))
  }

  function Delta(t: PegToken): int {
    if t.FunctionCall? || t == Operator('(') then 1 else if t == Operator(')') then -1 else 0
  }

  function Depth(ts: seq<PegToken>): int {
    if ts == [] then 0 else Depth(ts[..|ts| - 1]) + Delta(ts[|ts| - 1])
  }

  /** No bracket is closed that was not opened. */
  ghost predicate NeverNegative(ts: seq<PegToken>) {
    forall k :: 0 <= k <= |ts| ==> Depth(ts[..k]) >= 0
  }

  predicate EndsInOr(ts: seq<PegToken>) {
    ts != [] && ts[|ts| - 1] == Operator('/')
  }

  ghost predicate RuleOk(rule: Rule) {
    && |rule.parameters| <= 1 && (forall p :: p in rule.parameters ==> IsWord(p))
    && (forall t :: t in rule.tokens ==> TokenOk(t))
    && NeverNegative(rule.tokens)
  }

  /** A rule that a line break can end. */
  ghost predicate Complete(rule: Rule) {
    RuleOk(rule) && rule.tokens != [] && Depth(rule.tokens) == 0 && !EndsInOr(rule.tokens)
  }

  // ---------- the printer ----------

  /** A literal may be marked as one in which case does not matter; the mark means nothing to the parser. */
  function Show(t: PegToken, marked: bool): string {
    match t
    case Literal(text) => "'" + text + (if marked then "'i" else "'")
    case Reference(text) => text
    case Operator(op) => [op]
    case FunctionCall(text) => text + "("
    case Regex(text) => text
  }

  function PrintToken(t: PegToken): string {
    Show(t, true)
  }

  function PrintTokens(ts: seq<PegToken>): string {
    if ts == [] then "" else " " + PrintToken(ts[0]) + PrintTokens(ts[1..])
  }

  function PrintParameters(ps: seq<string>): string {
    if ps == [] then "" else "(" + ps[0] + ")"
  }

  function PrintRule(name: string, rule: Rule): string {
    name + PrintParameters(rule.parameters) + " <-" + PrintTokens(rule.tokens) + "\n"
  }

  type Listing = seq<(string, Rule)>

  function PrintRules(rs: Listing): string {
    if rs == [] then "" else PrintRule(rs[0].0, rs[0].1) + PrintRules(rs[1..])
  }

  function AddAll(rules: Rules, rs: Listing): Rules
    decreases |rs|
  {
    if rs == [] then rules else AddAll(rules[rs[0].0 := rs[0].1], rs[1..])
  }

  ghost predicate ListingOk(rs: Listing) {
    && (forall i :: 0 <= i < |rs| ==> IsRuleName(rs[i].0) && Complete(rs[i].1))
    && forall i, j :: 0 <= i < j < |rs| ==> rs[i].0 != rs[j].0
  }

  // ---------- scanning what was printed ----------

  ghost predicate Shows(text: string, c: nat, s: string) {
    c + |s| <= |text| && text[c..c + |s|] == s
  }

  lemma ShowsBoth(text: string, c: nat, s: string, t: string)
    requires Shows(text, c, s + t)
    ensures Shows(text, c, s) && Shows(text, c + |s|, t)
  {
    assert text[c..c + |s|] == text[c..c + |s + t|][..|s|] == (s + t)[..|s|] == s;
    assert text[c + |s|..c + |s + t|] == text[c..c + |s + t|][|s|..] == (s + t)[|s|..] == t;
  }

  lemma ShowsJoined(text: string, c: nat, s: string, t: string)
    requires Shows(text, c, s) && Shows(text, c + |s|, t)
    ensures Shows(text, c, s + t)
  {
    assert text[c..c + |s + t|] == text[c..c + |s|] + text[c + |s|..c + |s| + |t|];
  }

  lemma ShowsSlice(text: string, c: nat, s: string)
    requires Shows(text, c, s)
    ensures c + |s| <= |text| && text[c..c + |s|] == s
  {
  }

  lemma ShowsThree(text: string, c: nat, s: string, t: string, u: string)
    requires Shows(text, c, s + t + u)
    ensures Shows(text, c, s) && Shows(text, c + |s|, t) && Shows(text, c + |s| + |t|, u)
  {
    ShowsBoth(text, c, s + t, u);
    ShowsBoth(text, c, s, t);
  }

  lemma ShowsAt(text: string, c: nat, s: string, i: nat)
    requires Shows(text, c, s) && i < |s|
    ensures c + i < |text| && text[c + i] == s[i]
  {
    assert text[c..c + |s|][i] == s[i];
  }

  lemma {:induction false} WordScanned(text: string, c: nat, e: nat)
    requires c <= e <= |text| && (forall i :: c <= i < e ==> IsAlphaNumeric(text[i])) && !IsAlphaNumeric(At(text, e))
    ensures AlphaNumericEnd(text, c) == e
    decreases e - c
  {
    if c < e {
      WordScanned(text, c + 1, e);
    }
  }

  lemma {:induction false} LiteralScanned(text: string, c: nat, body: string)
    requires Shows(text, c, body) && IsLiteralBody(body) && c + |body| < |text| && text[c + |body|] == '\''
    ensures LiteralEnd(text, c) == c + |body|
    decreases |body|
  {
    if body != "" {
      var n := if body[0] == '\\' then 2 else 1;
      ShowsAt(text, c, body, 0);
      assert body == body[..n] + body[n..];
      ShowsBoth(text, c, body[..n], body[n..]);
      LiteralScanned(text, c + n, body[n..]);
    }
  }

  lemma {:induction false} RegexScanned(text: string, c: nat, body: string, close: char)
    requires Shows(text, c, body) && IsRegexBody(body, close) && close != '\\' && close != '\0'
    requires c + |body| < |text| && text[c + |body|] == close
    ensures RegexEnd(text, c, close) == c + |body|
    decreases |body|
  {
    if body != "" {
      var n := if body[0] == '\\' then 2 else 1;
      ShowsAt(text, c, body, 0);
      if n == 2 { ShowsAt(text, c, body, 1); }
      assert body == body[..n] + body[n..];
      ShowsBoth(text, c, body[..n], body[n..]);
      RegexScanned(text, c + n, body[n..], close);
    }
  }

  // ---------- parsing what was printed ----------

  lemma StepParsed(text: string, s: State, next: State)
    requires s.c < |text| && text[s.c] != '\0' && Step(text, s) == Ok(next)
    ensures ParseFrom(text, s) == ParseFrom(text, next)
  {
  }

  /** The state behind token `t` that ends at `e`. */
  function AfterToken(s: State, t: PegToken, e: nat): State
    requires s.brackets + Delta(t) >= 0
  {
    Push(s, t, e).(brackets := s.brackets + Delta(t), inOr := t == Operator('/'))
  }

  /** What follows the token does not belong to it. */
  predicate IsApart(t: PegToken, marked: bool, next: char) {
    match t
    case Literal(_) => marked || next != 'i'
    case Reference(_) => !IsAlphaNumeric(next) && next != '('
    case _ => true
  }

  /** Token `t` is shown at the place where `s` is, up to `e`. */
  ghost predicate TokenAt(text: string, s: State, t: PegToken, marked: bool, e: nat) {
    && TokenOk(t) && s.brackets + Delta(t) >= 0 && !s.inOr
    && Shows(text, s.c, Show(t, marked)) && e == s.c + |Show(t, marked)| && IsApart(t, marked, At(text, e))
  }

  lemma QuotesShown(text: string, c: nat, body: string, marked: bool, e: nat)
    requires Shows(text, c, Show(Literal(body), marked)) && e == c + |body| + 2
    ensures e <= |text| && text[c] == '\'' && text[e - 1] == '\'' && Shows(text, c + 1, body)
    ensures marked ==> At(text, e) == 'i'
  {
    var close := if marked then "'i" else "'";
    assert Show(Literal(body), marked) == "'" + body + close;
    hide Show, Shows;
    ShowsThree(text, c, "'", body, close);
    ShowsAt(text, c, "'", 0);
    ShowsAt(text, e - 1, close, 0);
    if marked {
      ShowsAt(text, e - 1, close, 1);
    }
  }

  lemma LiteralRead(text: string, c: nat, body: string)
    requires IsLiteralBody(body) && Shows(text, c, body) && c + |body| < |text| && text[c + |body|] == '\''
    ensures LiteralEnd(text, c) == c + |body| && text[c..c + |body|] == body
  {
    ShowsSlice(text, c, body);
    LiteralScanned(text, c, body);
  }

  lemma LiteralShown(text: string, c: nat, body: string, marked: bool, e: nat)
    requires IsLiteralBody(body) && Shows(text, c, Show(Literal(body), marked)) && e == c + |body| + 2
    ensures e <= |text| && text[c] == '\'' && LiteralEnd(text, c + 1) == e - 1 && text[c + 1..e - 1] == body
    ensures text[e - 1] == '\'' && (marked ==> At(text, e) == 'i')
  {
    hide Show, Shows, LiteralEnd, IsLiteralBody;
    QuotesShown(text, c, body, marked, e);
    LiteralRead(text, c + 1, body);
  }

  lemma LiteralParsed(text: string, s: State, t: PegToken, marked: bool, e: nat)
    requires TokenAt(text, s, t, marked, e) && t.Literal?
    ensures TokenStep(text, s) == Ok(AfterToken(s, t, e)) && text[s.c] == '\''
  {
    hide Shows, AlphaNumericEnd, LiteralEnd, RegexEnd, IsLiteralBody, IsRegexBody;
    LiteralShown(text, s.c, t.text, marked, s.c + |t.text| + 2);
  }

  lemma WordShown(text: string, c: nat, w: string)
    requires IsWord(w) && Shows(text, c, w) && !IsAlphaNumeric(At(text, c + |w|))
    ensures IsAlphaNumeric(text[c]) && AlphaNumericEnd(text, c) == c + |w| && text[c..c + |w|] == w
  {
    forall i | c <= i < c + |w| ensures IsAlphaNumeric(text[i]) { ShowsAt(text, c, w, i - c); }
    WordScanned(text, c, c + |w|);
  }

  lemma ReferenceParsed(text: string, s: State, t: PegToken, marked: bool, e: nat)
    requires TokenAt(text, s, t, marked, e) && t.Reference?
    ensures TokenStep(text, s) == Ok(AfterToken(s, t, e)) && IsAlphaNumeric(text[s.c])
  {
    WordShown(text, s.c, t.text);
  }

  lemma CallParsed(text: string, s: State, t: PegToken, marked: bool, e: nat)
    requires TokenAt(text, s, t, marked, e) && t.FunctionCall?
    ensures TokenStep(text, s) == Ok(AfterToken(s, t, e)) && IsAlphaNumeric(text[s.c])
  {
    hide AlphaNumericEnd, LiteralEnd, RegexEnd, IsLiteralBody, IsRegexBody;
    ShowsBoth(text, s.c, t.text, "(");
    ShowsAt(text, e - 1, "(", 0);
    WordShown(text, s.c, t.text);
  }

  lemma OperatorParsed(text: string, s: State, t: PegToken, marked: bool, e: nat)
    requires TokenAt(text, s, t, marked, e) && t.Operator?
    ensures TokenStep(text, s) == Ok(AfterToken(s, t, e)) && text[s.c] == t.op
  {
    ShowsAt(text, s.c, Show(t, marked), 0);
  }

  lemma RegexShown(text: string, c: nat, r: string)
    requires TokenOk(Regex(r)) && Shows(text, c, r)
    ensures text[c] == r[0] && RegexEnd(text, c, CloseOf(r[0])) == c + |r| - 1
  {
    var body, close := r[..|r| - 1], r[|r| - 1];
    assert r == body + [close];
    ShowsBoth(text, c, body, [close]);
    ShowsAt(text, c, r, 0);
    ShowsAt(text, c, r, |r| - 1);
    RegexScanned(text, c, body, close);
  }

  lemma RegexParsed(text: string, s: State, t: PegToken, marked: bool, e: nat)
    requires TokenAt(text, s, t, marked, e) && t.Regex?
    ensures TokenStep(text, s) == Ok(AfterToken(s, t, e)) && (text[s.c] == '[' || text[s.c] == '<')
  {
    hide AlphaNumericEnd, LiteralEnd, RegexEnd, IsLiteralBody, IsRegexBody;
    RegexShown(text, s.c, t.text);
  }

  lemma TokenParsed(text: string, s: State, t: PegToken, marked: bool, e: nat)
    requires TokenAt(text, s, t, marked, e)
    ensures s.c < |text| && text[s.c] !in ['#', '\0'] && !IsSpace(text[s.c])
    ensures TokenStep(text, s) == Ok(AfterToken(s, t, e))
  {
    match t
    case Literal(_) => LiteralParsed(text, s, t, marked, e);
    case Reference(_) => ReferenceParsed(text, s, t, marked, e);
    case FunctionCall(_) => CallParsed(text, s, t, marked, e);
    case Operator(_) => OperatorParsed(text, s, t, marked, e);
    case Regex(_) => RegexParsed(text, s, t, marked, e);
  }

  lemma {:induction false} DepthConcat(ts: seq<PegToken>, us: seq<PegToken>)
    ensures Depth(ts + us) == Depth(ts) + Depth(us)
    decreases |us|
  {
    if us == [] {
      assert ts + us == ts;
    } else {
      assert (ts + us)[..|ts + us| - 1] == ts + us[..|us| - 1];
      DepthConcat(ts, us[..|us| - 1]);
    }
  }

  lemma DepthCons(t: PegToken, ts: seq<PegToken>)
    ensures Depth([t] + ts) == Delta(t) + Depth(ts)
  {
    DepthConcat([t], ts);
    assert [t][..0] == [];
  }

  /** The state in which a new rule may begin. */
  function Between(c: nat, rules: Rules): State {
    START.(c := c, rules := rules)
  }

  lemma NameParsed(text: string, s: State, name: string)
    requires s.phase == RuleName && IsRuleName(name) && Shows(text, s.c, name)
    requires s.c + |name| < |text| && !IsAlphaNumeric(text[s.c + |name|])
    ensures Step(text, s) == Ok(s.(c := s.c + |name|, name := name, rule := Rule([], []), phase := RuleSeparator))
    ensures text[s.c] != '\0'
  {
    var e := s.c + |name|;
    forall i | s.c <= i < e ensures text[i] == name[i - s.c] { ShowsAt(text, s.c, name, i - s.c); }
    WordScanned(text, if name[0] == '%' then s.c + 1 else s.c, e);
  }

  lemma ParameterShown(text: string, c: nat, p: string, e: nat)
    requires IsWord(p) && Shows(text, c, "(" + p + ")") && e == c + 1 + |p|
    ensures text[c] == '(' && AlphaNumericEnd(text, c + 1) == e && text[c + 1..e] == p && text[e] == ')'
  {
    ShowsThree(text, c, "(", p, ")");
    ShowsAt(text, c, "(", 0);
    ShowsAt(text, e, ")", 0);
    WordShown(text, c + 1, p);
  }

  lemma ParameterParsed(text: string, s: State, p: string)
    requires s.phase == RuleSeparator && s.rule == Rule([], []) && IsWord(p) && Shows(text, s.c, "(" + p + ")")
    ensures Step(text, s) == Ok(s.(c := s.c + |p| + 2, rule := Rule([p], []))) && text[s.c] == '('
  {
    ParameterShown(text, s.c, p, s.c + 1 + |p|);
    assert [] + [p] == [p];
    assert Step(text, s) == SeparatorStep(text, s);
  }
}
