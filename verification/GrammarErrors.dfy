/** Which grammar texts are rejected, and with which error: at the first place where nothing else may stand. */
module GrammarErrors {
  import opened Characters
  import opened Grammar
  import opened GrammarRoundTrip

  /** From `a` to `p` and no further there are letters and digits. */
  predicate IsWordTo(text: string, a: nat, p: nat) {
    a <= p <= |text| && !IsAlphaNumeric(At(text, p)) && forall k :: a <= k < p ==> IsAlphaNumeric(text[k])
  }

  predicate EndsRule(s: State, c: char) {
    s.phase == RuleDefinition && IsNewline(c) && s.brackets == 0 && !s.inOr && s.rule.tokens != []
  }

  /** Something is to be read in this phase: not a blank, a comment or the end of a rule. */
  predicate Reads(text: string, s: State, phase: Phase) {
    s.c < |text| && s.phase == phase && text[s.c] != '#' && !IsSpace(text[s.c])
  }

  /** What is wrong where the parser stands. */
  predicate IsWrong(text: string, s: State, e: ParseError)
    requires s.c < |text|
  {
    var c := text[s.c];
    match e
    case DuplicateRule(name) => EndsRule(s, c) && name == s.name && name in s.rules
    case ExpectedRuleName(p) => Reads(text, s, RuleName) && p == s.c && c != '%' && !IsAlphaNumeric(c)
    case MultipleParameters(p) => Reads(text, s, RuleSeparator) && p == s.c && c == '(' && s.rule.parameters != []
    case ExpectedParameter(p) =>
      Reads(text, s, RuleSeparator) && p == s.c + 1 && c == '(' && s.rule.parameters == [] && IsWordTo(text, p, p)
    case ExpectedClosingBracket(p) =>
      && Reads(text, s, RuleSeparator) && s.c + 1 < p && c == '(' && s.rule.parameters == []
      && IsWordTo(text, s.c + 1, p) && At(text, p) != ')'
    case ExpectedDefinition(p) =>
      Reads(text, s, RuleSeparator) && p == s.c && c != '(' && !(c == '<' && At(text, p + 1) == '-')
    case UnclosedLiteral(p) =>
      Reads(text, s, RuleDefinition) && c == '\'' && p == LiteralEnd(text, s.c + 1) <= |text| && At(text, p) == '\0'
    case UnclosedBracket(p, name) =>
      Reads(text, s, RuleDefinition) && p == s.c && name == s.name && c == ')' && s.brackets == 0
    case UnrecognizedContents(name, x) =>
      && Reads(text, s, RuleDefinition) && name == s.name && x == c
      && c !in ['\'', '[', '<'] && !IsAlphaNumeric(c) && !IsPegOperator(c)
    case ReadPastEnd(p) =>
      && Reads(text, s, RuleDefinition)
      && if c == '\'' then p == LiteralEnd(text, s.c + 1) > |text|
         else (c == '[' || c == '<') && RegexEnd(text, s.c, CloseOf(c)) == |text| && p == |text| + 1
    case MissingDefinition(_) => false
    case EmptyRule(_) => false
  }

  lemma {:induction false} WordEndIs(text: string, a: nat, p: nat)
    requires a <= |text|
    ensures IsWordTo(text, a, p) <==> AlphaNumericEnd(text, a) == p
    decreases |text| - a
  {
    if IsAlphaNumeric(At(text, a)) {
      WordEndIs(text, a + 1, p);
    }
  }

  lemma SeparatorRejects(text: string, s: State, e: ParseError)
    requires Reads(text, s, RuleSeparator)
    ensures SeparatorStep(text, s) == Err(e) <==> IsWrong(text, s, e)
  {
    WordEndIs(text, s.c + 1, AlphaNumericEnd(text, s.c + 1));
    if e.ExpectedClosingBracket? || e.ExpectedParameter? {
      WordEndIs(text, s.c + 1, e.pos);
    }
    hide AlphaNumericEnd, LiteralEnd, RegexEnd, IsWordTo;
  }

  lemma TokenRejects(text: string, s: State, e: ParseError)
    requires Reads(text, s, RuleDefinition)
    ensures TokenStep(text, s.(inOr := false)) == Err(e) <==> IsWrong(text, s, e)
  {
    hide AlphaNumericEnd, LiteralEnd, RegexEnd, IsWordTo;
  }

  /** A step is an error exactly if that is wrong. */
  lemma RejectsExactly(text: string, s: State, e: ParseError)
    requires s.c < |text| && text[s.c] != '\0'
    ensures Step(text, s) == Err(e) <==> IsWrong(text, s, e)
  {
    if Reads(text, s, RuleSeparator) {
      SeparatorRejects(text, s, e);
    } else if Reads(text, s, RuleDefinition) {
      TokenRejects(text, s, e);
    }
    hide SeparatorStep, TokenStep, AlphaNumericEnd, LiteralEnd, RegexEnd, LineEnd, IsWordTo;
  }

  /** At the end of the text a rule must have a definition, and not have been stored. */
  lemma FinishExactly(s: State, e: ParseError)
    ensures Finish(s) == Err(e) <==>
      || (s.phase == RuleSeparator && e == MissingDefinition(s.name))
      || (s.phase == RuleDefinition && s.rule.tokens == [] && e == EmptyRule(s.name))
      || (s.phase == RuleDefinition && s.rule.tokens != [] && s.name in s.rules && e == DuplicateRule(s.name))
  {
  }
}
