/** The tokenizer as the program runs it: one index that also moves backwards, and a state for what it is inside of. */
module Tokenizer {
  import opened Characters
  import opened Lexing

  /** The statements ended so far and the tokens of the current one. */
  datatype Script = Script(statements: seq<seq<string>>, tokens: seq<string>)

  function Collect(events: seq<Event>): Script {
    if events == [] then Script([], [])
    else
      var s := Collect(events[..|events| - 1]);
      match events[|events| - 1]
      case Token(text, _, _) => Script(s.statements, s.tokens + [text])
      case StatementEnd(_) => Script(s.statements + [s.tokens], [])
  }

  lemma CollectSnoc(events: seq<Event>, e: Event)
    ensures Collect(events + [e]) ==
      match e
      case Token(text, _, _) => Script(Collect(events).statements, Collect(events).tokens + [text])
      case StatementEnd(_) => Script(Collect(events).statements + [Collect(events).tokens], [])
  {
    assert (events + [e])[..|events|] == events;
  }

  /** What the locals of the main loop satisfy between two turns. */
  ghost predicate StateOk(sql: string, state: TokenizeState, i: nat, last: nat, marker: string) {
    && last <= i <= |sql|
    && match state
       case STANDARD => true
       case SINGLE_LINE_COMMENT => true
       case MULTI_LINE_COMMENT => true
       case NUMERIC => last < i && IsInitialNumber(sql[last])
       case DOLLAR_QUOTED_STRING => last + |marker| + 2 <= i
       case _ => last < i
  }

  function Cut(sql: string, last: nat, e: nat, end: nat, state: TokenizeState): Lexed
    requires last <= e <= |sql| && (e < |sql| ==> last <= end <= |sql|)
  {
    if e == |sql| then Lexed([], state, last)
    else LexFrom(sql, end, end).After([Token(sql[last..end], last, end)])
  }

  /** What is still to come when the loop is at `i` in `state`, inside something that began at `last`. */
  function Rest(sql: string, state: TokenizeState, i: nat, last: nat, marker: string): Lexed
    requires StateOk(sql, state, i, last, marker)
  {
    match state
    case STANDARD => LexFrom(sql, i, last)
    case STRING_LITERAL =>
      var e := QuoteEnd(sql, i, '\'');
      Cut(sql, last, e, e + 1, state)
    case QUOTED_IDENTIFIER =>
      var e := QuoteEnd(sql, i, '"');
      Cut(sql, last, e, e + 1, state)
    case SINGLE_LINE_COMMENT =>
      var e := RunEnd(sql, i, IsNotNewline);
      if e == |sql| then Lexed([], state, last) else LexFrom(sql, e + 1, e + 1)
    case MULTI_LINE_COMMENT =>
      var e := CommentEnd(sql, i);
      if e == |sql| then Lexed([], state, last) else LexFrom(sql, e + 2, e + 2)
    case NUMERIC =>
      var e := RunEnd(sql, i, IsNumber);
      Cut(sql, last, e, NumberEnd(sql, last, e), state)
    case OPERATOR =>
      var e := RunEnd(sql, i, IsOperator);
      Cut(sql, last, e, e, state)
    case KEYWORD =>
      var e := RunEnd(sql, i, IsKeyword);
      Cut(sql, last, e, e, state)
    case DOLLAR_QUOTED_STRING =>
      var e := DollarEnd(sql, i, marker);
      if e == |sql| then Lexed([], state, last)
      else
        assert RunEnd(sql, e + 1, IsNotDollar) == e + 1 + |marker|;
        var next := e + |marker| + 2;
        LexFrom(sql, next, next).After([Token("'" + sql[last + |marker| + 2..e] + "'", last, next)])
  }

  lemma AfterAfter(r: Lexed, a: seq<Event>, b: seq<Event>)
    ensures r.After(b).After(a) == r.After(a + b)
  {
    assert a + (b + r.events) == (a + b) + r.events;
  }

  lemma AfterNothing(r: Lexed)
    ensures r.After([]) == r
  {
    assert [] + r.events == r.events;
  }

  // ---------- what begins at `i` is read in one of the states ----------

  lemma Skipped(sql: string, i: nat, last: nat, next: nat, l: nat)
    requires last <= i < |sql| && Next(sql, i, last) == Nothing(next, l)
    ensures LexFrom(sql, i, last) == Rest(sql, STANDARD, next, l, "")
  {
  }

  lemma Emitted(sql: string, i: nat, last: nat, text: string, next: nat)
    requires last <= i < |sql| && Next(sql, i, last) == Word(text, next)
    ensures LexFrom(sql, i, last) == Rest(sql, STANDARD, next, next, "").After([Token(text, i, next)])
  {
  }

  lemma EndedStatement(sql: string, i: nat, last: nat)
    requires last <= i < |sql| && sql[i] == ';'
    ensures LexFrom(sql, i, last) == Rest(sql, STANDARD, i + 1, i + 1, "").After([StatementEnd(i)])
  {
  }

  lemma QuoteBegins(sql: string, i: nat, last: nat)
    requires last <= i < |sql| && (sql[i] == '\'' || sql[i] == '"')
    ensures LexFrom(sql, i, last) ==
            Rest(sql, if sql[i] == '\'' then STRING_LITERAL else QUOTED_IDENTIFIER, i + 1, i, "")
  {
  }

  lemma CommentPiece(sql: string, i: nat, last: nat)
    requires last <= i && i + 1 < |sql| && (sql[i..i + 2] == "--" || sql[i..i + 2] == "/*")
    ensures Next(sql, i, last) ==
      if sql[i] == '-' then
        var e := RunEnd(sql, i + 2, IsNotNewline);
        if e == |sql| then CutOff(SINGLE_LINE_COMMENT, last) else Nothing(e + 1, e + 1)
      else
        var e := CommentEnd(sql, i + 2);
        if e == |sql| then CutOff(MULTI_LINE_COMMENT, last) else Nothing(e + 2, e + 2)
    ensures sql[i] == '-' || sql[i] == '/'
  {
    hide RunEnd, CommentEnd;
    assert sql[i..i + 2][0] == sql[i] && sql[i..i + 2][1] == sql[i + 1];
  }

  lemma CommentBegins(sql: string, i: nat, last: nat)
    requires last <= i && i + 1 < |sql| && (sql[i..i + 2] == "--" || sql[i..i + 2] == "/*")
    ensures LexFrom(sql, i, last) ==
            Rest(sql, if sql[i] == '-' then SINGLE_LINE_COMMENT else MULTI_LINE_COMMENT, i + 2, last, "")
  {
    hide RunEnd, CommentEnd, Next;
    CommentPiece(sql, i, last);
  }

  /** What begins at a byte that is no space and begins no quote, comment or end of a statement. */
  lemma PlainPiece(sql: string, i: nat, last: nat)
    requires last <= i < |sql| && sql[i] !in ['\'', '"', ';', '$'] && !IsSpace(sql[i])
    requires i + 1 < |sql| ==> sql[i..i + 2] != "--" && sql[i..i + 2] != "/*"
    ensures var length := SpecialOperator(sql, i);
      Next(sql, i, last) ==
      if length > 0 then Word(sql[i..i + length], i + length)
      else if IsSingleByteOperator(sql[i]) then Word([sql[i]], i + 1)
      else if IsInitialNumber(sql[i]) then NumberPiece(sql, i)
      else if IsPunctuation(sql[i]) then RunPiece(sql, i, IsOperator, OPERATOR)
      else RunPiece(sql, i, IsKeyword, KEYWORD)
  {
    hide SpecialOperator, NumberPiece, RunPiece, IsSingleByteOperator, IsInitialNumber, IsPunctuation, IsSpace;
    if i + 1 < |sql| {
      assert sql[i..i + 2] == [sql[i], sql[i + 1]];
    }
  }

  lemma WordBegins(sql: string, i: nat, last: nat, state: TokenizeState)
    requires last <= i < |sql| && state in {NUMERIC, OPERATOR, KEYWORD}
    requires Next(sql, i, last) ==
      if state == NUMERIC && IsInitialNumber(sql[i]) then NumberPiece(sql, i)
      else RunPiece(sql, i, if state == OPERATOR then IsOperator else IsKeyword, state)
    requires state == NUMERIC <==> IsInitialNumber(sql[i])
    ensures LexFrom(sql, i, last) == Rest(sql, state, i + 1, i, "")
  {
  }

  lemma DollarStarts(sql: string, i: nat, last: nat)
    requires last <= i < |sql| && sql[i] == '$'
    ensures Next(sql, i, last) == DollarPiece(sql, i, last)
  {
    hide DollarPiece;
  }

  lemma DollarClosed(sql: string, i: nat, last: nat, d: nat)
    requires last <= i && i + 1 < |sql| && sql[i] == '$' && !IsDigit(sql[i + 1])
    requires d == RunEnd(sql, i + 1, IsDollarTag) < |sql| && sql[d] == '$'
    ensures var marker := sql[i + 1..d];
      var e := DollarEnd(sql, d + 1, marker);
      if e == |sql| then DollarPiece(sql, i, last) == CutOff(DOLLAR_QUOTED_STRING, i)
      else
        && RunEnd(sql, e + 1, IsNotDollar) == e + 1 + |marker|
        && DollarPiece(sql, i, last) == Word("'" + sql[d + 1..e] + "'", e + |marker| + 2)
  {
    hide RunEnd, DollarEnd;
    var marker := sql[i + 1..d];
    var e := DollarEnd(sql, d + 1, marker);
    assert e < |sql| ==> RunEnd(sql, e + 1, IsNotDollar) == e + 1 + |marker|;
  }

  lemma DollarBegins(sql: string, i: nat, last: nat, d: nat)
    requires last <= i && i + 1 < |sql| && sql[i] == '$' && !IsDigit(sql[i + 1])
    requires d == RunEnd(sql, i + 1, IsDollarTag) < |sql| && sql[d] == '$'
    ensures LexFrom(sql, i, last) == Rest(sql, DOLLAR_QUOTED_STRING, d + 1, i, sql[i + 1..d])
  {
    hide RunEnd, DollarEnd, ClosesDollar, LexFrom, Next, DollarPiece;
    DollarStarts(sql, i, last);
    DollarClosed(sql, i, last, d);
    var marker := sql[i + 1..d];
    var e := DollarEnd(sql, d + 1, marker);
    if e == |sql| {
      CutOffRead(sql, i, last, DOLLAR_QUOTED_STRING, i);
    } else {
      assert i + |marker| + 2 == d + 1;
      Emitted(sql, i, last, "'" + sql[d + 1..e] + "'", e + |marker| + 2);
    }
  }

  lemma CutOffRead(sql: string, i: nat, last: nat, state: TokenizeState, l: nat)
    requires last <= i < |sql| && Next(sql, i, last) == CutOff(state, l)
    ensures LexFrom(sql, i, last) == Lexed([], state, l)
  {
    hide Next;
  }

  function QuoteOf(state: TokenizeState): char {
    if state == STRING_LITERAL then '\'' else '"'
  }

  lemma InQuotes(sql: string, state: TokenizeState, i: nat, last: nat, marker: string)
    requires i < |sql| && state in {STRING_LITERAL, QUOTED_IDENTIFIER} && StateOk(sql, state, i, last, marker)
    ensures var q := QuoteOf(state);
      Rest(sql, state, i, last, marker) ==
      if sql[i] != q then Rest(sql, state, i + 1, last, marker)
      else if i + 1 < |sql| && sql[i + 1] == q then Rest(sql, state, i + 2, last, marker)
      else Rest(sql, STANDARD, i + 1, i + 1, marker).After([Token(sql[last..i + 1], last, i + 1)])
  {
    hide LexFrom;
  }

  lemma Start(sql: string)
    ensures Lex(sql) == Rest(sql, STANDARD, 0, 0, "").After([])
  {
    AfterNothing(Lex(sql));
  }

  lemma End(sql: string, state: TokenizeState, last: nat, marker: string)
    requires StateOk(sql, state, |sql|, last, marker)
    ensures Rest(sql, state, |sql|, last, marker) == Lexed([], state, last)
  {
  }

  lemma AfterLexed(events: seq<Event>, state: TokenizeState, last: nat)
    ensures Lexed([], state, last).After(events) == Lexed(events, state, last)
  {
    assert events + [] == events;
  }

  lemma SliceOfSlice(s: string, a: nat, b: nat, c: nat, d: nat)
    requires a <= b <= |s| && c <= d <= b - a
    ensures s[a..b][c..d] == s[a + c..a + d]
  {
    var l, r := s[a..b][c..d], s[a + c..a + d];
    assert |l| == |r|;
    forall k | 0 <= k < |l| ensures l[k] == r[k] {
      assert l[k] == s[a..b][c + k] == s[a + (c + k)];
    }
  }

  lemma StandardRest(sql: string, i: nat, last: nat, marker: string)
    requires last <= i <= |sql|
    ensures Rest(sql, STANDARD, i, last, marker) == LexFrom(sql, i, last)
  {
  }

  lemma AnyMarker(sql: string, i: nat, last: nat, marker: string)
    requires StateOk(sql, STANDARD, i, last, marker)
    ensures Rest(sql, STANDARD, i, last, marker) == Rest(sql, STANDARD, i, last, "")
  {
  }

  lemma InComment(sql: string, state: TokenizeState, i: nat, last: nat, marker: string)
    requires i < |sql| && state in {SINGLE_LINE_COMMENT, MULTI_LINE_COMMENT} && StateOk(sql, state, i, last, marker)
    ensures Rest(sql, state, i, last, marker) ==
      if state == SINGLE_LINE_COMMENT && (sql[i] == '\n' || sql[i] == '\r')
      then Rest(sql, STANDARD, i + 1, i + 1, marker)
      else if state == MULTI_LINE_COMMENT && sql[i] == '*' && i + 1 < |sql| && sql[i + 1] == '/'
      then Rest(sql, STANDARD, i + 2, i + 2, marker)
      else Rest(sql, state, i + 1, last, marker)
  {
    hide LexFrom;
  }

  predicate IsInside(state: TokenizeState, c: char) {
    if state == NUMERIC then IsNumber(c) else if state == OPERATOR then IsOperator(c) else IsKeyword(c)
  }

  lemma InWord(sql: string, state: TokenizeState, i: nat, last: nat, marker: string)
    requires i < |sql| && state in {NUMERIC, OPERATOR, KEYWORD} && StateOk(sql, state, i, last, marker)
    ensures Rest(sql, state, i, last, marker) ==
      if IsInside(state, sql[i]) then Rest(sql, state, i + 1, last, marker)
      else
        var e := if state == NUMERIC then NumberEnd(sql, last, i) else i;
        Rest(sql, STANDARD, e, e, marker).After([Token(sql[last..e], last, e)])
  {
    hide LexFrom, NumberEnd;
  }

  lemma AfterDollars(sql: string, i: nat, last: nat, marker: string)
    requires i < |sql| && StateOk(sql, DOLLAR_QUOTED_STRING, i, last, marker) && ClosesDollar(sql, i, marker)
    ensures var next := i + |marker| + 2;
      && next <= |sql|
      && Rest(sql, DOLLAR_QUOTED_STRING, i, last, marker)
         == Rest(sql, STANDARD, next, next, marker).After([Token("'" + sql[last + |marker| + 2..i] + "'", last, next)])
  {
    hide LexFrom, ClosesDollar, RunEnd;
    ClosedBehind(sql, i, marker);
  }

  lemma ClosedBehind(sql: string, i: nat, marker: string)
    requires i < |sql| && ClosesDollar(sql, i, marker)
    ensures RunEnd(sql, i + 1, IsNotDollar) == i + 1 + |marker| < |sql|
  {
  }

  lemma InDollars(sql: string, i: nat, last: nat, marker: string)
    requires i < |sql| && StateOk(sql, DOLLAR_QUOTED_STRING, i, last, marker) && !ClosesDollar(sql, i, marker)
    ensures Rest(sql, DOLLAR_QUOTED_STRING, i, last, marker) == Rest(sql, DOLLAR_QUOTED_STRING, i + 1, last, marker)
  {
  }

  class ParserTokenizer {
    const sql: string
    var tokens: seq<string>
    var statements: seq<seq<string>>
    ghost var events: seq<Event>

    constructor (sql: string)
      ensures this.sql == sql && tokens == [] && statements == [] && events == []
    {
      this.sql, tokens, statements, events := sql, [], [], [];
    }

    ghost predicate Valid()
      reads this
    {
      Collect(events) == Script(statements, tokens)
    }

    method EmplaceToken(text: string, ghost from: nat, ghost to: nat)
      requires Valid()
      modifies this
      ensures Valid() && events == old(events) + [Token(text, from, to)]
    {
      CollectSnoc(events, Token(text, from, to));
      tokens := tokens + [text];
      events := events + [Token(text, from, to)];
    }

    method PushToken(start: nat, end: nat)
      requires Valid() && end <= |sql|
      modifies this
      ensures Valid()
      ensures events == if start < end then old(events) + [Token(sql[start..end], start, end)] else old(events)
    {
      if start >= end {
        return;
      }
      EmplaceToken(sql[start..end], start, end);
    }

    method OnStatementEnd(pos: nat)
      requires Valid()
      modifies this
      ensures Valid() && events == old(events) + [StatementEnd(pos)]
    {
      CollectSnoc(events, StatementEnd(pos));
      statements := statements + [tokens];
      tokens := [];
      events := events + [StatementEnd(pos)];
    }

    /** The marker that opens at the dollar sign at `i`, if there is one, ends at the next dollar sign. */
    method NextDollar(i: nat) returns (next: nat)
      requires i < |sql|
      ensures var d := RunEnd(sql, i + 1, IsDollarTag);
        next == if d < |sql| && sql[d] == '$' then d else 0
    {
      next := 0;
      var idx := i + 1;
      while idx < |sql|
        invariant i < idx <= |sql| && next == 0
        invariant RunEnd(sql, idx, IsDollarTag) == RunEnd(sql, i + 1, IsDollarTag)
      {
        if sql[idx] == '$' {
          next := idx;
          break;
        }
        if !IsDollarTag(sql[idx]) {
          break;
        }
        idx := idx + 1;
      }
    }

    /** At a byte that begins an operator, a number or a keyword. Leaves `i` on the last byte it has read. */
    method Plain(i0: nat, last0: nat) returns (state: TokenizeState, i: nat, last: nat)
      requires Valid() && i0 < |sql| && last0 <= i0
      requires sql[i0] !in ['\'', '"', ';', '$'] && !IsSpace(sql[i0])
      requires i0 + 1 < |sql| ==> sql[i0..i0 + 2] != "--" && sql[i0..i0 + 2] != "/*"
      modifies this
      ensures Valid() && i0 <= i && last0 <= last && StateOk(sql, state, i + 1, last, "") && old(events) <= events
      ensures LexFrom(sql, i0, last0) == Rest(sql, state, i + 1, last, "").After(events[|old(events)|..])
    {
      PlainPiece(sql, i0, last0);
      hide LexFrom, Rest, Next, NumberPiece, RunPiece, SpecialOperator, IsSpace, IsPunctuation, IsSingleByteOperator;
      state, i, last := STANDARD, i0, last0;
      var c := sql[i];
      var length := SpecialOperator(sql, i);
      if length > 0 {
        Emitted(sql, i, last, sql[i..i + length], i + length);
        EmplaceToken(sql[i..i + length], i, i + length);
        assert events[|old(events)|..] == [Token(sql[i..i + length], i, i + length)];
        i := i + length - 1;
        last := i + 1;
      } else if IsSingleByteOperator(c) {
        Emitted(sql, i, last, [c], i + 1);
        EmplaceToken([c], i, i + 1);
        assert events[|old(events)|..] == [Token([c], i, i + 1)];
        last := i + 1;
      } else {
        state := if IsInitialNumber(c) then NUMERIC else if IsPunctuation(c) then OPERATOR else KEYWORD;
        WordBegins(sql, i, last, state);
        last := i;
        assert events[|events|..] == [];
        AfterNothing(Rest(sql, state, i + 1, last, ""));
      }
    }

    /** One turn of the loop between tokens. */
    method Standard(i0: nat, last0: nat) returns (state: TokenizeState, i: nat, last: nat, marker: string)
      requires Valid() && i0 < |sql| && last0 <= i0
      modifies this
      ensures Valid() && i0 < i && last0 <= last && StateOk(sql, state, i, last, marker)
      ensures old(events) <= events
      ensures LexFrom(sql, i0, last0) == Rest(sql, state, i, last, marker).After(events[|old(events)|..])
    {
      hide LexFrom, Rest;
      state, i, last, marker := STANDARD, i0, last0, "";
      var c := sql[i];
      ghost var whole := LexFrom(sql, i, last);
      assert events[|events|..] == [];
      if c == '\'' {
        QuoteBegins(sql, i, last);
        state, last := STRING_LITERAL, i;
      } else if c == '"' {
        QuoteBegins(sql, i, last);
        state, last := QUOTED_IDENTIFIER, i;
      } else if c == ';' {
        EndedStatement(sql, i, last);
        OnStatementEnd(i);
        last := i + 1;
      } else if c == '$' {
        state, i, last, marker := Dollar(i, last);
      } else if c == '-' && i + 1 < |sql| && sql[i + 1] == '-' {
        CommentBegins(sql, i, last);
        i := i + 1;
        state := SINGLE_LINE_COMMENT;
      } else if c == '/' && i + 1 < |sql| && sql[i + 1] == '*' {
        CommentBegins(sql, i, last);
        i := i + 1;
        state := MULTI_LINE_COMMENT;
      } else if IsSpace(c) {
        Skipped(sql, i, last, i + 1, i + 1);
        last := i + 1;
      } else {
        state, i, last := Plain(i, last);
      }
      i := i + 1;
      AfterNothing(Rest(sql, state, i, last, marker));
    }

    /** At a dollar sign that may open a dollar-quoted string. Leaves `i` on the last byte it has read. */
    method Dollar(i0: nat, last0: nat) returns (state: TokenizeState, i: nat, last: nat, marker: string)
      requires i0 < |sql| && last0 <= i0 && sql[i0] == '$'
      ensures i0 <= i && last0 <= last && StateOk(sql, state, i + 1, last, marker)
      ensures LexFrom(sql, i0, last0) == Rest(sql, state, i + 1, last, marker)
    {
      hide LexFrom, Rest;
      state, i, last, marker := STANDARD, i0, last0, "";
      if i + 1 >= |sql| || IsDigit(sql[i + 1]) {
        Skipped(sql, i, last, i + 1, last);
        return;
      }
      last := i;
      var next := NextDollar(i);
      if next == 0 {
        Skipped(sql, i, last0, i + 1, i);
        return;
      }
      DollarBegins(sql, i, last0, next);
      state := DOLLAR_QUOTED_STRING;
      marker := sql[last + 1..next];
      i := next;
    }

    /** Moves back to right behind the last digit or dot of the number that began at `last`. */
    method BackToNumber(last: nat, e: nat) returns (i: nat)
      requires last < e <= |sql| && IsInitialNumber(sql[last])
      ensures i == NumberEnd(sql, last, e)
    {
      i := e;
      while !IsInitialNumber(sql[i - 1])
        invariant last < i <= e && NumberEnd(sql, last, i) == NumberEnd(sql, last, e)
        decreases i
      {
        i := i - 1;
      }
    }

    /** One turn of the loop inside a number, an operator or a keyword. What ends it is looked at again. */
    method InsideWord(state0: TokenizeState, i0: nat, last0: nat, ghost marker: string)
      returns (state: TokenizeState, i: nat, last: nat)
      requires Valid() && i0 < |sql| && state0 in {NUMERIC, OPERATOR, KEYWORD}
      requires StateOk(sql, state0, i0, last0, marker)
      modifies this
      ensures Valid() && StateOk(sql, state, i, last, marker) && old(events) <= events
      ensures last0 < last || (last0 == last && i0 < i)
      ensures Rest(sql, state0, i0, last0, marker) == Rest(sql, state, i, last, marker).After(events[|old(events)|..])
    {
      hide LexFrom, NumberEnd, Rest;
      InWord(sql, state0, i0, last0, marker);
      state, i, last := state0, i0, last0;
      assert events[|events|..] == [];
      AfterNothing(Rest(sql, state0, i0, last0, marker));
      var c := sql[i];
      var inside := if state == NUMERIC then IsNumber(c) else if state == OPERATOR then IsOperator(c) else IsKeyword(c);
      if inside {
        i := i + 1;
      } else {
        if state == NUMERIC {
          i := BackToNumber(last, i);
        }
        PushToken(last, i);
        assert events[|old(events)|..] == [Token(sql[last..i], last, i)];
        state := STANDARD;
        last := i;
      }
    }

    /** One turn of the loop inside quotes. */
    method InsideQuotes(state0: TokenizeState, i0: nat, last0: nat, ghost marker: string)
      returns (state: TokenizeState, i: nat, last: nat)
      requires Valid() && i0 < |sql| && state0 in {STRING_LITERAL, QUOTED_IDENTIFIER}
      requires StateOk(sql, state0, i0, last0, marker)
      modifies this
      ensures Valid() && i0 < i && last0 <= last && StateOk(sql, state, i, last, marker) && old(events) <= events
      ensures Rest(sql, state0, i0, last0, marker) == Rest(sql, state, i, last, marker).After(events[|old(events)|..])
    {
      hide Rest, LexFrom, QuoteEnd;
      state, i, last := state0, i0, last0;
      InQuotes(sql, state, i, last, marker);
      assert events[|events|..] == [];
      if sql[i] == QuoteOf(state) {
        if i + 1 < |sql| && sql[i + 1] == QuoteOf(state) {
          i := i + 1;
        } else {
          PushToken(last, i + 1);
          last := i + 1;
          state := STANDARD;
        }
      }
      i := i + 1;
      AfterNothing(Rest(sql, state, i, last, marker));
    }

    /** One turn of the loop inside a comment. */
    method InsideComment(state0: TokenizeState, i0: nat, last0: nat, ghost marker: string)
      returns (state: TokenizeState, i: nat, last: nat)
      requires i0 < |sql| && state0 in {SINGLE_LINE_COMMENT, MULTI_LINE_COMMENT}
      requires StateOk(sql, state0, i0, last0, marker)
      ensures i0 < i && last0 <= last && StateOk(sql, state, i, last, marker)
      ensures Rest(sql, state0, i0, last0, marker) == Rest(sql, state, i, last, marker)
    {
      hide Rest;
      InComment(sql, state0, i0, last0, marker);
      state, i, last := state0, i0, last0;
      var c := sql[i];
      if state == SINGLE_LINE_COMMENT {
        if c == '\n' || c == '\r' {
          last := i + 1;
          state := STANDARD;
        }
      } else if c == '*' && i + 1 < |sql| && sql[i + 1] == '/' {
        i := i + 1;
        last := i + 1;
        state := STANDARD;
      }
      i := i + 1;
    }

    /** The next `$`, or the end of the text. */
    method FindDollar(start: nat) returns (end: nat)
      requires start <= |sql|
      ensures end == RunEnd(sql, start, IsNotDollar)
    {
      end := start;
      while end < |sql| && sql[end] != '$'
        invariant start <= end <= |sql| && RunEnd(sql, end, IsNotDollar) == RunEnd(sql, start, IsNotDollar)
      {
        end := end + 1;
      }
    }

    /** Yields the content of the dollar-quoted string whose closing marker is at `i`, in single quotes. */
    method CloseDollars(i: nat, last: nat, marker: string, end: nat)
      requires Valid() && i < |sql| && StateOk(sql, DOLLAR_QUOTED_STRING, i, last, marker)
      requires ClosesDollar(sql, i, marker) && end == i + 1 + |marker| < |sql|
      modifies this
      ensures Valid() && old(events) <= events
      ensures Rest(sql, DOLLAR_QUOTED_STRING, i, last, marker)
           == Rest(sql, STANDARD, end + 1, end + 1, marker).After(events[|old(events)|..])
    {
      hide Rest, LexFrom, ClosesDollar;
      var full := |marker| + 2;
      var quoted := sql[last..end + 1];
      SliceOfSlice(sql, last, end + 1, full, i - last);
      quoted := "'" + quoted[full..|quoted| - full] + "'";
      AfterDollars(sql, i, last, marker);
      EmplaceToken(quoted, last, end + 1);
    }

    /** One turn of the loop inside a dollar-quoted string. */
    method InsideDollars(i0: nat, last0: nat, marker: string) returns (state: TokenizeState, i: nat, last: nat)
      requires Valid() && i0 < |sql| && StateOk(sql, DOLLAR_QUOTED_STRING, i0, last0, marker)
      modifies this
      ensures Valid() && i0 < i && last0 <= last && StateOk(sql, state, i, last, marker) && old(events) <= events
      ensures state in {STANDARD, DOLLAR_QUOTED_STRING}
      ensures Rest(sql, DOLLAR_QUOTED_STRING, i0, last0, marker)
           == Rest(sql, state, i, last, marker).After(events[|old(events)|..])
    {
      hide Rest, LexFrom, DollarEnd;
      state, i, last := DOLLAR_QUOTED_STRING, i0, last0;
      if sql[i] == '$' && i + 1 < |sql| {
        var start := i + 1;
        var end := FindDollar(start);
        if end < |sql| && end - start == |marker| && sql[start..start + |marker|] == marker {
          CloseDollars(i, last, marker, end);
          return STANDARD, end + 1, end + 1;
        }
      }
      InDollars(sql, i, last, marker);
      i := i + 1;
      assert events[|events|..] == [];
      AfterNothing(Rest(sql, state, i, last, marker));
    }

    /** Tokenizes the text. It fails exactly when the text ends inside a comment; otherwise the text from the start
        of the last word on is the last token, without its quote if it is an open string literal. */
    method TokenizeInput() returns (ok: bool)
      requires Valid() && events == []
      modifies this
      ensures events == Lex(sql).events
      ensures ok <==> Lex(sql).state !in {SINGLE_LINE_COMMENT, MULTI_LINE_COMMENT}
      ensures var script, last := Collect(Lex(sql).events), LastWord(sql);
        && statements == script.statements
        && tokens == if ok && last != "" then script.tokens + [last] else script.tokens
    {
      hide Rest, LexFrom, Collect;
      var state, marker := STANDARD, "";
      var i: nat, last: nat := 0, 0;
      Start(sql);
      while i < |sql|
        invariant Valid() && StateOk(sql, state, i, last, marker)
        invariant Lex(sql) == Rest(sql, state, i, last, marker).After(events)
        decreases |sql| - last, |sql| - i
      {
        ghost var before := events;
        match state
        case STANDARD =>
          StandardRest(sql, i, last, marker);
          state, i, last, marker := Standard(i, last);
        case STRING_LITERAL =>
          state, i, last := InsideQuotes(state, i, last, marker);
        case QUOTED_IDENTIFIER =>
          state, i, last := InsideQuotes(state, i, last, marker);
        case SINGLE_LINE_COMMENT =>
          state, i, last := InsideComment(state, i, last, marker);
          AfterNothing(Rest(sql, state, i, last, marker));
        case MULTI_LINE_COMMENT =>
          state, i, last := InsideComment(state, i, last, marker);
          AfterNothing(Rest(sql, state, i, last, marker));
        case DOLLAR_QUOTED_STRING =>
          state, i, last := InsideDollars(i, last, marker);
          if state == STANDARD {
            AnyMarker(sql, i, last, marker);
            marker := "";
          }
        case _ =>
          state, i, last := InsideWord(state, i, last, marker);
        AfterAfter(Rest(sql, state, i, last, marker), before, events[|before|..]);
        assert before + events[|before|..] == events;
      }
      End(sql, state, last, marker);
      AfterLexed(events, state, last);
      if state == STRING_LITERAL {
        last := last + 1;
      }
      if state == SINGLE_LINE_COMMENT || state == MULTI_LINE_COMMENT {
        return false;
      }
      var lastWord := sql[last..];
      if lastWord != "" {
        tokens := tokens + [lastWord];
      }
      ok := true;
    }
  }

  /** The text from the start of the last word on, without the quote of an open string literal. */
  function LastWord(sql: string): string {
    var r := Lex(sql);
    LastWithin(sql);
    sql[if r.state == STRING_LITERAL then r.last + 1 else r.last..]
  }

  lemma LastWithin(sql: string)
    ensures var r := Lex(sql); r.last <= |sql| && (r.state == STRING_LITERAL ==> r.last < |sql|)
  {
    LastWithinFrom(sql, 0, 0);
  }

  lemma {:induction false} LastWithinFrom(sql: string, i: nat, last: nat)
    requires last <= i <= |sql|
    ensures var r := LexFrom(sql, i, last); r.last <= |sql| && (r.state == STRING_LITERAL ==> r.last < |sql|)
    decreases |sql| - i
  {
    hide Next;
    if i < |sql| {
      match Next(sql, i, last)
      case Nothing(next, l) => LastWithinFrom(sql, next, l);
      case Word(_, next) => LastWithinFrom(sql, next, next);
      case Semicolon => LastWithinFrom(sql, i + 1, i + 1);
      case CutOff(_, _) =>
    }
  }
}
