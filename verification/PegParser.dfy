/** The grammar parser as the program runs it, one character index moving over the text. */
module PegParser {
  import opened Characters
  import opened Grammar

  method SkipComment(text: string, start: nat) returns (c: nat)
    requires start < |text| && text[start] == '#'
    ensures c == LineEnd(text, start + 1)
  {
    c := start;
    while At(text, c) != '\0' && !IsNewline(At(text, c))
      invariant start <= c <= |text|
      invariant c == start || LineEnd(text, c) == LineEnd(text, start + 1)
      decreases |text| - c
    {
      c := c + 1;
    }
  }

  method SkipAlphaNumeric(text: string, start: nat) returns (c: nat)
    requires start <= |text|
    ensures c == AlphaNumericEnd(text, start)
  {
    c := start;
    while At(text, c) != '\0' && IsAlphaNumeric(At(text, c))
      invariant start <= c <= |text| && AlphaNumericEnd(text, c) == AlphaNumericEnd(text, start)
      decreases |text| - c
    {
      c := c + 1;
    }
  }

  /** Stops past the end of the text when the terminator is skipped as an escaped character. */
  method SkipLiteral(text: string, start: nat) returns (c: nat)
    requires start <= |text|
    ensures c == LiteralEnd(text, start)
  {
    c := start;
    while c <= |text| && At(text, c) != '\0' && At(text, c) != '\''
      invariant start <= c <= |text| + 1 && LiteralEnd(text, c) == LiteralEnd(text, start)
      decreases |text| + 1 - c
    {
      if At(text, c) == '\\' {
        c := c + 1;
      }
      c := c + 1;
    }
  }

  method SkipRegex(text: string, start: nat, close: char) returns (c: nat)
    requires start <= |text|
    ensures c == RegexEnd(text, start, close)
  {
    c := start;
    while At(text, c) != '\0' && At(text, c) != close
      invariant start <= c <= |text| && RegexEnd(text, c, close) == RegexEnd(text, start, close)
      decreases |text| - c
    {
      if At(text, c) == '\\' {
        c := c + 1;
        if At(text, c) == '\0' {
          assert RegexEnd(text, c, close) == c;
        }
      }
      if At(text, c) != '\0' {
        c := c + 1;
      }
    }
  }

  /** Parses a parameter in brackets behind a rule name. */
  method ParseParameter(text: string, start: nat, rule: Rule, ghost s: State) returns (r: Result<Rule>, c: nat)
    requires start < |text| && text[start] == '(' && s.c == start && s.rule == rule
    ensures match SeparatorStep(text, s)
            case Err(e) => r == Err(e)
            case Ok(next) => r.Ok? && c <= |text| && next == s.(c := c, rule := r.value)
  {
    c := start;
    if rule.parameters != [] {
      return Err(MultipleParameters(c)), c;
    }
    c := SkipAlphaNumeric(text, start + 1);
    if c == start + 1 {
      return Err(ExpectedParameter(c)), c;
    }
    var parameter := text[start + 1..c];
    if At(text, c) != ')' {
      return Err(ExpectedClosingBracket(c)), c;
    }
    r := Ok(rule.(parameters := rule.parameters + [parameter]));
    c := c + 1;
  }

  /** Parses one token of a rule definition. */
  method ParseToken(text: string, start: nat, ruleName: string, brackets: nat, ghost s: State)
    returns (r: Result<PegToken>, c: nat, bracketCount: nat, inOrClause: bool)
    requires start < |text| && s.c == start && s.name == ruleName && s.brackets == brackets && !s.inOr
    ensures match TokenStep(text, s)
            case Err(e) => r == Err(e)
            case Ok(next) =>
              && r.Ok? && c <= |text|
              && next == Push(s, r.value, c).(brackets := bracketCount, inOr := inOrClause)
  {
    c, bracketCount, inOrClause := start, brackets, false;
    var ch := text[c];
    if ch == '\'' {
      c := SkipLiteral(text, start + 1);
      if c > |text| {
        return Err(ReadPastEnd(c)), c, bracketCount, inOrClause;
      }
      if At(text, c) == '\0' {
        return Err(UnclosedLiteral(c)), c, bracketCount, inOrClause;
      }
      r := Ok(Literal(text[start + 1..c]));
      c := c + 1;
      if At(text, c) == 'i' {
        c := c + 1;
      }
    } else if IsAlphaNumeric(ch) {
      c := SkipAlphaNumeric(text, c);
      if At(text, c) == '(' {
        r := Ok(FunctionCall(text[start..c]));
        c := c + 1;
        bracketCount := bracketCount + 1;
      } else {
        r := Ok(Reference(text[start..c]));
      }
    } else if ch == '[' || ch == '<' {
      c := SkipRegex(text, c, if ch == '[' then ']' else '>');
      c := c + 1;
      if c > |text| {
        return Err(ReadPastEnd(c)), c, bracketCount, inOrClause;
      }
      r := Ok(Regex(text[start..c]));
    } else if IsPegOperator(ch) {
      if ch == '(' {
        bracketCount := bracketCount + 1;
      } else if ch == ')' {
        if bracketCount == 0 {
          return Err(UnclosedBracket(c, ruleName)), c, bracketCount, inOrClause;
        }
        bracketCount := bracketCount - 1;
      } else if ch == '/' {
        inOrClause := true;
      }
      r := Ok(Operator(ch));
      c := c + 1;
    } else {
      r := Err(UnrecognizedContents(ruleName, ch));
    }
  }

  class PegParser {
    var rules: Rules

    constructor ()
      ensures rules == map[]
    {
      rules := map[];
    }

    /** Parses the whole grammar text into `rules`, or reports the first error. */
    method ParseRules(text: string) returns (r: Result<()>)
      requires rules == map[]
      modifies this
      ensures match Parse(text)
              case Ok(parsed) => r.Ok? && rules == parsed
              case Err(e) => r == Err(e)
    {
      var c, parseState, ruleName, rule := 0, RuleName, "", Rule([], []);
      var bracketCount, inOrClause := 0, false;
      while At(text, c) != '\0'
        invariant c <= |text| && bracketCount >= 0
        invariant Parse(text) == ParseFrom(text, State(c, parseState, ruleName, rule, bracketCount, inOrClause, rules))
        decreases |text| - c
      {
        ghost var s := State(c, parseState, ruleName, rule, bracketCount, inOrClause, rules);
        var ch := text[c];
        if ch == '#' {
          c := SkipComment(text, c);
          continue;
        }
        if parseState == RuleDefinition && IsNewline(ch) && bracketCount == 0 && !inOrClause && rule.tokens != [] {
          if ruleName in rules {
            return Err(DuplicateRule(ruleName));
          }
          rules := rules[ruleName := rule];
          ruleName, rule, parseState := "", Rule([], []), RuleName;
          c := c + 1;
          continue;
        }
        if IsSpace(ch) {
          c := c + 1;
          continue;
        }
        match parseState {
          case RuleName =>
            var start := c;
            if ch == '%' {
              c := c + 1;
            }
            c := SkipAlphaNumeric(text, c);
            if c == start {
              return Err(ExpectedRuleName(c));
            }
            ruleName, rule, parseState := text[start..c], Rule([], []), RuleSeparator;
          case RuleSeparator =>
            if ch == '(' {
              var next;
              next, c := ParseParameter(text, c, rule, s);
              if next.Err? {
                return Err(next.error);
              }
              rule := next.value;
            } else {
              if ch != '<' || At(text, c + 1) != '-' {
                return Err(ExpectedDefinition(c));
              }
              c := c + 2;
              parseState := RuleDefinition;
            }
          case RuleDefinition =>
            var token;
            token, c, bracketCount, inOrClause := ParseToken(text, c, ruleName, bracketCount, s.(inOr := false));
            if token.Err? {
              return Err(token.error);
            }
            rule := rule.(tokens := rule.tokens + [token.value]);
        }
        assert Step(text, s) == Ok(State(c, parseState, ruleName, rule, bracketCount, inOrClause, rules));
      }
      if parseState == RuleSeparator {
        return Err(MissingDefinition(ruleName));
      }
      if parseState == RuleDefinition {
        if rule.tokens == [] {
          return Err(EmptyRule(ruleName));
        }
        if ruleName in rules {
          return Err(DuplicateRule(ruleName));
        }
        rules := rules[ruleName := rule];
      }
      return Ok(());
    }
  }
}
