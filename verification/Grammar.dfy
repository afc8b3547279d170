/** PEG grammar text: its tokens and rules, the parser as a state machine over characters, and a printer. */
module Grammar {
  import opened Characters

  datatype PegToken =
    | Literal(text: string)
    | Reference(text: string)
    | Operator(op: char)
    | FunctionCall(text: string)
    | Regex(text: string)

  /** A parameter is referred to by its position in `parameters`. */
  datatype Rule = Rule(parameters: seq<string>, tokens: seq<PegToken>)

  type Rules = map<string, Rule>

  datatype ParseError =
    | DuplicateRule(name: string)
    | ExpectedRuleName(pos: nat)
    | MultipleParameters(pos: nat)
    | ExpectedParameter(pos: nat)
    | ExpectedClosingBracket(pos: nat)
    | ExpectedDefinition(pos: nat)
    | UnclosedLiteral(pos: nat)
    | UnclosedBracket(pos: nat, name: string)
    | UnrecognizedContents(name: string, c: char)
    | MissingDefinition(name: string)
    | EmptyRule(name: string)
    | ReadPastEnd(pos: nat)

  datatype Result<+T> = Ok(value: T) | Err(error: ParseError)

  // ---------- characters ----------

  predicate IsAlphaNumeric(c: char) {
    'A' <= c <= 'Z' || 'a' <= c <= 'z' || '0' <= c <= '9'
  }

  predicate IsPegOperator(c: char) {
    c in ['/', '?', '(', ')', '*', '!']
  }

  /** The grammar is a C string: reading at its length gives the terminator. */
  function At(text: string, c: nat): char
    requires c <= |text|
  {
    if c < |text| then text[c] else '\0'
  }

  // ---------- scanning ----------

  function LineEnd(text: string, c: nat): (e: nat)
    requires c <= |text|
    ensures c <= e <= |text|
    decreases |text| - c
  {
    if At(text, c) == '\0' || IsNewline(At(text, c)) then c else LineEnd(text, c + 1)
  }

  function AlphaNumericEnd(text: string, c: nat): (e: nat)
    requires c <= |text|
    ensures c <= e <= |text|
    decreases |text| - c
  {
    if IsAlphaNumeric(At(text, c)) then AlphaNumericEnd(text, c + 1) else c
  }

  /** Where the literal with contents from `c` ends: at its quote, at the terminator, or one past it
      when the terminator is taken for an escaped character. */
  function LiteralEnd(text: string, c: nat): (e: nat)
    requires c <= |text| + 1
    ensures c <= e <= |text| + 1
    decreases |text| + 1 - c
  {
    if c > |text| || At(text, c) == '\0' || At(text, c) == '\'' then c
    else if At(text, c) == '\\' then LiteralEnd(text, c + 2)
    else LiteralEnd(text, c + 1)
  }

  function RegexEnd(text: string, c: nat, close: char): (e: nat)
    requires c <= |text|
    ensures c <= e <= |text|
    decreases |text| - c
  {
    if At(text, c) == '\0' || At(text, c) == close then c
    else if At(text, c) == '\\' && At(text, c + 1) != '\0' then RegexEnd(text, c + 2, close)
    else RegexEnd(text, c + 1, close)
  }

  // ---------- the parser ----------

  datatype Phase = RuleName | RuleSeparator | RuleDefinition

  datatype State = State(
    c: nat, phase: Phase, name: string, rule: Rule, brackets: nat, inOr: bool, rules: Rules)

  const START := State(0, RuleName, "", Rule([], []), 0, false, map[])

  function AddRule(rules: Rules, name: string, rule: Rule): Result<Rules> {
    if name in rules then Err(DuplicateRule(name)) else Ok(rules[name := rule])
  }

  /** One turn of the main loop. */
  function Step(text: string, s: State): (r: Result<State>)
    requires s.c < |text| && text[s.c] != '\0'
    ensures r.Ok? ==> r.value.c > s.c
  {
    var ch := text[s.c];
    if ch == '#' then Ok(s.(c := LineEnd(text, s.c + 1)))
    else if s.phase == RuleDefinition && IsNewline(ch) && s.brackets == 0 && !s.inOr && s.rule.tokens != [] then
      var r := AddRule(s.rules, s.name, s.rule);
      if r.Err? then Err(r.error)
      else Ok(s.(c := s.c + 1, phase := RuleName, name := "", rule := Rule([], []), rules := r.value))
    else if IsSpace(ch) then Ok(s.(c := s.c + 1))
    else
      match s.phase
      case RuleName => NameStep(text, s)
      case RuleSeparator => SeparatorStep(text, s)
      case RuleDefinition => TokenStep(text, s.(inOr := false))
  }

  function NameStep(text: string, s: State): (r: Result<State>)
    requires s.c < |text|
    ensures r.Ok? ==> r.value.c > s.c
  {
    var e := AlphaNumericEnd(text, if text[s.c] == '%' then s.c + 1 else s.c);
    if e == s.c then Err(ExpectedRuleName(e))
    else Ok(s.(c := e, name := text[s.c..e], rule := Rule([], []), phase := RuleSeparator))
  }

  function SeparatorStep(text: string, s: State): (r: Result<State>)
    requires s.c < |text|
    ensures r.Ok? ==> r.value.c > s.c
  {
    if text[s.c] == '(' then
      if s.rule.parameters != [] then Err(MultipleParameters(s.c))
      else
        var e := AlphaNumericEnd(text, s.c + 1);
        if e == s.c + 1 then Err(ExpectedParameter(e))
        else if At(text, e) != ')' then Err(ExpectedClosingBracket(e))
        else Ok(s.(c := e + 1, rule := s.rule.(parameters := s.rule.parameters + [text[s.c + 1..e]])))
    else if text[s.c] != '<' || At(text, s.c + 1) != '-' then Err(ExpectedDefinition(s.c))
    else Ok(s.(c := s.c + 2, phase := RuleDefinition))
  }

  function Push(s: State, t: PegToken, c: nat): State {
    s.(c := c, rule := s.rule.(tokens := s.rule.tokens + [t]))
  }

  function TokenStep(text: string, s: State): (r: Result<State>)
    requires s.c < |text|
    ensures r.Ok? ==> r.value.c > s.c
  {
    var ch := text[s.c];
    if ch == '\'' then
      var e := LiteralEnd(text, s.c + 1);
      if e > |text| then Err(ReadPastEnd(e))
      else if At(text, e) == '\0' then Err(UnclosedLiteral(e))
      else Ok(Push(s, Literal(text[s.c + 1..e]), if At(text, e + 1) == 'i' then e + 2 else e + 1))
    else if IsAlphaNumeric(ch) then
      var e := AlphaNumericEnd(text, s.c);
      if At(text, e) == '(' then Ok(Push(s, FunctionCall(text[s.c..e]), e + 1).(brackets := s.brackets + 1))
      else Ok(Push(s, Reference(text[s.c..e]), e))
    else if ch == '[' || ch == '<' then
      var e := RegexEnd(text, s.c, if ch == '[' then ']' else '>');
      if e == |text| then Err(ReadPastEnd(e + 1))
      else Ok(Push(s, Regex(text[s.c..e + 1]), e + 1))
    else if ch == ')' && s.brackets == 0 then Err(UnclosedBracket(s.c, s.name))
    else if IsPegOperator(ch) then
      Ok(Push(s, Operator(ch), s.c + 1).(
           brackets := if ch == '(' then s.brackets + 1 else if ch == ')' then s.brackets - 1 else s.brackets,
           inOr := ch == '/'))
    else Err(UnrecognizedContents(s.name, ch))
  }

  function Finish(s: State): Result<Rules> {
    match s.phase
    case RuleName => Ok(s.rules)
    case RuleSeparator => Err(MissingDefinition(s.name))
    case RuleDefinition => if s.rule.tokens == [] then Err(EmptyRule(s.name)) else AddRule(s.rules, s.name, s.rule)
  }

  function ParseFrom(text: string, s: State): Result<Rules>
    decreases |text| - s.c
  {
    if s.c > |text| then Err(ReadPastEnd(s.c))
    else if At(text, s.c) == '\0' then Finish(s)
    else
      var r := Step(text, s);
      if r.Err? then Err(r.error) else ParseFrom(text, r.value)
  }

  function Parse(text: string): Result<Rules> {
    ParseFrom(text, START)
  }
}
