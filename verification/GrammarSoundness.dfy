/** Every rule the grammar parser accepts is well formed, so an accepted grammar can be printed and parsed again. */
module GrammarSoundness {
  import opened Characters
  import opened Grammar
  import opened GrammarRoundTrip
  import opened GrammarLayout

  ghost predicate IsCString(text: string) {
    '\0' !in text
  }

  lemma {:induction false} AlphaNumericRun(text: string, c: nat)
    requires c <= |text|
    ensures forall i :: c <= i < AlphaNumericEnd(text, c) ==> IsAlphaNumeric(text[i])
    decreases |text| - c
  {
    if IsAlphaNumeric(At(text, c)) {
      AlphaNumericRun(text, c + 1);
    }
  }

  lemma {:induction false} LiteralRun(text: string, c: nat, e: nat)
    requires IsCString(text) && c <= |text| + 1 && LiteralEnd(text, c) == e < |text|
    ensures text[e] == '\'' && IsLiteralBody(text[c..e])
    decreases |text| + 1 - c
  {
    assert At(text, e) == text[e];
    if c < e {
      var n := if text[c] == '\\' then 2 else 1;
      LiteralRun(text, c + n, e);
      assert text[c..e][n..] == text[c + n..e];
      assert text[c] != '\'' || n == 2;
    } else {
      assert text[c..e] == "";
    }
  }

  lemma {:induction false} RegexRun(text: string, c: nat, close: char, e: nat)
    requires IsCString(text) && c <= |text| && close != '\\' && RegexEnd(text, c, close) == e < |text|
    ensures text[e] == close && IsRegexBody(text[c..e], close)
    decreases |text| - c
  {
    if c < e {
      var n := if text[c] == '\\' then 2 else 1;
      RegexRun(text, c + n, close, e);
      assert text[c..e][n..] == text[c + n..e];
    } else {
      assert text[c..e] == "";
    }
  }

  lemma NeverNegativeSnoc(ts: seq<PegToken>, t: PegToken)
    requires NeverNegative(ts) && Depth(ts) + Delta(t) >= 0
    ensures NeverNegative(ts + [t]) && Depth(ts + [t]) == Depth(ts) + Delta(t)
  {
    assert (ts + [t])[..|ts|] == ts;
    forall k | 0 <= k <= |ts + [t]| ensures Depth((ts + [t])[..k]) >= 0 {
      if k <= |ts| {
        assert (ts + [t])[..k] == ts[..k];
      } else {
        assert (ts + [t])[..k] == ts + [t];
      }
    }
  }

  /** What holds between two turns of the parser's loop. */
  ghost predicate Inv(s: State) {
    && (forall n :: n in s.rules ==> IsRuleName(n) && Complete(s.rules[n]))
    && (s.phase != RuleName ==> IsRuleName(s.name) && RuleOk(s.rule))
    && (s.phase != RuleDefinition ==> s.rule.tokens == [] && s.brackets == 0 && !s.inOr)
    && (s.phase == RuleDefinition ==> Depth(s.rule.tokens) == s.brackets && s.inOr == EndsInOr(s.rule.tokens))
  }

  lemma PushKeepsInv(s: State, t: PegToken, c: nat)
    requires Inv(s) && s.phase == RuleDefinition && TokenOk(t) && s.brackets + Delta(t) >= 0
    ensures Inv(AfterToken(s, t, c))
  {
    NeverNegativeSnoc(s.rule.tokens, t);
    var ts := s.rule.tokens + [t];
    forall u | u in ts ensures TokenOk(u) {
      if u in s.rule.tokens {} else { assert u == t; }
    }
  }

  lemma WordRun(text: string, c: nat)
    requires c < |text| && IsAlphaNumeric(text[c])
    ensures c < AlphaNumericEnd(text, c) && IsWord(text[c..AlphaNumericEnd(text, c)])
  {
    AlphaNumericRun(text, c);
    assert AlphaNumericEnd(text, c) == AlphaNumericEnd(text, c + 1);
  }

  lemma RegexTokenRun(text: string, c: nat, e: nat)
    requires IsCString(text) && c < |text| && (text[c] == '[' || text[c] == '<')
    requires e == RegexEnd(text, c, CloseOf(text[c])) < |text|
    ensures TokenOk(Regex(text[c..e + 1]))
  {
    RegexRun(text, c, CloseOf(text[c]), e);
    var r := text[c..e + 1];
    assert r[..|r| - 1] == text[c..e] && r[0] == text[c] && r[|r| - 1] == text[e];
  }

  /** The parser reads a well-formed token and keeps count of the brackets. */
  lemma TokenStepSound(text: string, s: State) returns (t: PegToken, c: nat)
    requires IsCString(text) && s.c < |text| && TokenStep(text, s).Ok? && !s.inOr
    ensures TokenOk(t) && s.brackets + Delta(t) >= 0
    ensures TokenStep(text, s).value == AfterToken(s, t, c)
  {
    hide AlphaNumericEnd, LiteralEnd, RegexEnd, IsLiteralBody, IsRegexBody;
    var ch := text[s.c];
    if ch == '\'' {
      var e := LiteralEnd(text, s.c + 1);
      LiteralRun(text, s.c + 1, e);
      t, c := Literal(text[s.c + 1..e]), if At(text, e + 1) == 'i' then e + 2 else e + 1;
    } else if IsAlphaNumeric(ch) {
      var e := AlphaNumericEnd(text, s.c);
      var w := text[s.c..e];
      WordRun(text, s.c);
      if At(text, e) == '(' {
        t, c := FunctionCall(w), e + 1;
      } else {
        t, c := Reference(w), e;
      }
    } else if ch == '[' || ch == '<' {
      var e := RegexEnd(text, s.c, CloseOf(ch));
      RegexTokenRun(text, s.c, e);
      t, c := Regex(text[s.c..e + 1]), e + 1;
    } else {
      t, c := Operator(ch), s.c + 1;
    }
  }

  lemma NameStepKeepsInv(text: string, s: State)
    requires IsCString(text) && s.c < |text| && Inv(s) && s.phase == RuleName && NameStep(text, s).Ok?
    ensures Inv(NameStep(text, s).value)
  {
    var from := if text[s.c] == '%' then s.c + 1 else s.c;
    AlphaNumericRun(text, from);
    var e := AlphaNumericEnd(text, from);
    var name := text[s.c..e];
    forall i | 1 <= i < |name| ensures IsAlphaNumeric(name[i]) {
      assert name[i] == text[s.c + i];
    }
    assert name[0] == text[s.c];
    assert NeverNegative([]);
  }

  lemma SeparatorStepKeepsInv(text: string, s: State)
    requires IsCString(text) && s.c < |text| && Inv(s) && s.phase == RuleSeparator && SeparatorStep(text, s).Ok?
    ensures Inv(SeparatorStep(text, s).value)
  {
    if text[s.c] == '(' {
      var e := AlphaNumericEnd(text, s.c + 1);
      AlphaNumericRun(text, s.c + 1);
      assert IsWord(text[s.c + 1..e]);
    }
  }

  lemma StepKeepsInv(text: string, s: State)
    requires IsCString(text) && s.c < |text| && Inv(s) && Step(text, s).Ok?
    ensures Inv(Step(text, s).value)
  {
    hide TokenStep, NameStep, SeparatorStep, RuleOk, EndsInOr, Depth;
    var ch := text[s.c];
    if ch == '#' {
    } else if s.phase == RuleDefinition && IsNewline(ch) && s.brackets == 0 && !s.inOr && s.rule.tokens != [] {
    } else if IsSpace(ch) {
    } else {
      match s.phase
      case RuleName => NameStepKeepsInv(text, s);
      case RuleSeparator => SeparatorStepKeepsInv(text, s);
      case RuleDefinition =>
        var t, c := TokenStepSound(text, s.(inOr := false));
        PushKeepsInv(s, t, c);
        assert AfterToken(s.(inOr := false), t, c) == AfterToken(s, t, c);
    }
  }

  /** All rules are well formed, and all but possibly the last one are complete. */
  ghost predicate WellFormed(rules: Rules, last: string) {
    && (forall n :: n in rules ==> IsRuleName(n) && RuleOk(rules[n]) && rules[n].tokens != [])
    && (forall n :: n in rules && n != last ==> Complete(rules[n]))
  }

  lemma {:induction false} ParseFromSound(text: string, s: State) returns (last: string)
    requires IsCString(text) && Inv(s) && ParseFrom(text, s).Ok?
    ensures WellFormed(ParseFrom(text, s).value, last)
    decreases |text| - s.c
  {
    if At(text, s.c) == '\0' {
      last := s.name;
    } else {
      StepKeepsInv(text, s);
      last := ParseFromSound(text, Step(text, s).value);
    }
  }

  /** The parser stores only well-formed rules: proper names, at most one parameter, proper tokens,
      no bracket closed that was not opened; a rule ended by a line break also has its brackets closed. */
  lemma ParseSound(text: string)
    requires IsCString(text) && Parse(text).Ok?
    ensures exists last :: WellFormed(Parse(text).value, last)
  {
    assert NeverNegative([]);
    var last := ParseFromSound(text, START);
  }

  // ---------- printing what was parsed ----------

  lemma {:induction false} AddAllSnoc(rules: Rules, rs: Listing, name: string, rule: Rule)
    ensures AddAll(rules, rs + [(name, rule)]) == AddAll(rules, rs)[name := rule]
    decreases |rs|
  {
    if rs != [] {
      assert (rs + [(name, rule)])[1..] == rs[1..] + [(name, rule)];
      AddAllSnoc(rules[rs[0].0 := rs[0].1], rs[1..], name, rule);
    }
  }

  /** The rules of a map in some order. */
  lemma {:induction false} Listed(rules: Rules) returns (rs: Listing)
    ensures AddAll(map[], rs) == rules
    ensures forall i :: 0 <= i < |rs| ==> rs[i].0 in rules && rs[i].1 == rules[rs[i].0]
    ensures forall i, j :: 0 <= i < j < |rs| ==> rs[i].0 != rs[j].0
    decreases |rules|
  {
    if rules == map[] {
      rs := [];
    } else {
      var n :| n in rules;
      var fewer := rules - {n};
      assert fewer.Keys == rules.Keys - {n};
      assert |fewer| == |fewer.Keys| && |rules| == |rules.Keys|;
      var rest := Listed(fewer);
      rs := rest + [(n, rules[n])];
      AddAllSnoc(map[], rest, n, rules[n]);
      assert fewer[n := rules[n]] == rules;
    }
  }

  /** Printing an accepted grammar whose last rule is complete, and parsing the print, gives the same rules. */
  lemma PrintParsed(text: string)
    requires IsCString(text) && Parse(text).Ok?
    requires forall n :: n in Parse(text).value ==> Complete(Parse(text).value[n])
    ensures exists rs :: ListingOk(rs) && AddAll(map[], rs) == Parse(text).value
                         && Parse(PrintRules(rs)) == Parse(text)
  {
    hide Parse, Complete;
    var rules := Parse(text).value;
    ParseSound(text);
    var rs := Listed(rules);
    assert ListingOk(rs);
    ParsePrint(rs);
  }
}
