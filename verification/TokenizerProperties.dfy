/** Where tokens come from, and that printing tokens and tokenizing the print gives the same tokens. */
module TokenizerProperties {
  import opened Characters
  import opened Lexing
  import opened Tokenizer

  // ---------- spans ----------

  function Start(e: Event): nat {
    match e
    case Token(_, from, _) => from
    case StatementEnd(pos) => pos
  }

  function End(e: Event): nat {
    match e
    case Token(_, _, to) => to
    case StatementEnd(pos) => pos + 1
  }

  /** `source` is `$marker$content$marker$` with a marker of length m, and `text` is the content in quotes. */
  predicate DollarQuotedWith(source: string, m: nat, text: string) {
    && |source| >= 2 * m + 4
    && var close := |source| - m - 2;
    && source[0] == '$' && source[m + 1] == '$' && source[close] == '$' && source[|source| - 1] == '$'
    && source[1..m + 1] == source[close + 1..|source| - 1]
    && text == "'" + source[m + 2..close] + "'"
  }

  ghost predicate DollarQuoted(source: string, text: string) {
    exists m: nat :: DollarQuotedWith(source, m, text)
  }

  /** A token is the text it was read from, unless that is dollar-quoted. */
  ghost predicate FromSource(sql: string, e: Event) {
    match e
    case StatementEnd(pos) => pos < |sql| && sql[pos] == ';'
    case Token(text, from, to) =>
      from < to <= |sql| && (if sql[from] == '$' then DollarQuoted(sql[from..to], text) else text == sql[from..to])
  }

  ghost predicate InOrder(sql: string, from: nat, events: seq<Event>) {
    && (forall k :: 0 <= k < |events| ==> FromSource(sql, events[k]) && from <= Start(events[k]))
    && (forall j, k :: 0 <= j < k < |events| ==> End(events[j]) <= Start(events[k]))
  }

  lemma InOrderCons(sql: string, from: nat, e: Event, rest: seq<Event>)
    requires FromSource(sql, e) && from <= Start(e) && InOrder(sql, End(e), rest)
    ensures InOrder(sql, from, [e] + rest)
  {
    var all := [e] + rest;
    forall k | 0 <= k < |all| ensures FromSource(sql, all[k]) && from <= Start(all[k]) {
      if k > 0 { assert all[k] == rest[k - 1]; }
    }
    forall j, k | 0 <= j < k < |all| ensures End(all[j]) <= Start(all[k]) {
      assert all[k] == rest[k - 1];
      if j > 0 { assert all[j] == rest[j - 1]; }
    }
  }

  lemma DollarSliced(sql: string, i: nat, d: nat, e: nat, next: nat)
    requires i < d < e < next <= |sql| && next - 1 - e == d - i
    requires sql[i] == '$' && sql[d] == '$' && sql[e] == '$' && sql[next - 1] == '$'
    requires sql[i + 1..d] == sql[e + 1..next - 1]
    ensures DollarQuoted(sql[i..next], "'" + sql[d + 1..e] + "'")
  {
    var source := sql[i..next];
    SliceOfSlice(sql, i, next, 1, d - i);
    SliceOfSlice(sql, i, next, e - i + 1, next - 1 - i);
    SliceOfSlice(sql, i, next, d + 1 - i, e - i);
    assert DollarQuotedWith(source, d - i - 1, "'" + sql[d + 1..e] + "'");
  }

  lemma DollarSource(sql: string, i: nat, last: nat)
    requires last <= i < |sql| && sql[i] == '$' && Next(sql, i, last).Word?
    ensures var p := Next(sql, i, last); DollarQuoted(sql[i..p.next], p.text)
  {
    hide DollarEnd, DollarQuoted;
    var d := RunEnd(sql, i + 1, IsDollarTag);
    var e := DollarEnd(sql, d + 1, sql[i + 1..d]);
    assert Next(sql, i, last) == DollarPiece(sql, i, last);
    var close := RunEnd(sql, e + 1, IsNotDollar);
    assert close < |sql| && sql[e + 1..close] == sql[i + 1..d];
    DollarSliced(sql, i, d, e, close + 1);
  }

  lemma WordSource(sql: string, i: nat, last: nat)
    requires last <= i < |sql| && sql[i] != '$' && Next(sql, i, last).Word?
    ensures var p := Next(sql, i, last); p.text == sql[i..p.next]
  {
  }

  /** Events are read from disjoint parts of the text, in order, and each token is what it was read from. */
  lemma {:induction false} EventsInOrder(sql: string, i: nat, last: nat)
    requires last <= i <= |sql|
    ensures InOrder(sql, i, LexFrom(sql, i, last).events)
    decreases |sql| - i
  {
    hide FromSource, Next;
    if i < |sql| {
      match Next(sql, i, last)
      case Nothing(next, l) =>
        EventsInOrder(sql, next, l);
        WeakenOrder(sql, i, next, LexFrom(sql, next, l).events);
      case Word(text, next) =>
        EventsInOrder(sql, next, next);
        WordFromSource(sql, i, last);
        InOrderCons(sql, i, Token(text, i, next), LexFrom(sql, next, next).events);
      case Semicolon =>
        EventsInOrder(sql, i + 1, i + 1);
        SemicolonFromSource(sql, i, last);
        InOrderCons(sql, i, StatementEnd(i), LexFrom(sql, i + 1, i + 1).events);
      case CutOff(_, _) =>
    }
  }

  lemma WeakenOrder(sql: string, i: nat, next: nat, events: seq<Event>)
    requires i <= next && InOrder(sql, next, events)
    ensures InOrder(sql, i, events)
  {
  }

  lemma WordFromSource(sql: string, i: nat, last: nat)
    requires last <= i < |sql| && Next(sql, i, last).Word?
    ensures var p := Next(sql, i, last); FromSource(sql, Token(p.text, i, p.next))
  {
    if sql[i] == '$' {
      DollarSource(sql, i, last);
    } else {
      WordSource(sql, i, last);
    }
  }

  lemma SemicolonFromSource(sql: string, i: nat, last: nat)
    requires last <= i < |sql| && Next(sql, i, last).Semicolon?
    ensures FromSource(sql, StatementEnd(i))
  {
  }

  // ---------- which texts are tokens ----------

  predicate IsNumberText(t: string) {
    t != "" && IsInitialNumber(t[0]) && IsInitialNumber(t[|t| - 1]) && forall k :: 0 <= k < |t| ==> IsNumber(t[k])
  }

  predicate IsOperatorText(t: string) {
    t != "" && (forall k :: 0 <= k < |t| ==> IsOperator(t[k]))
    && (|t| >= 2 ==> t[..2] !in ["::", ":=", "**", "//", "/*"])
  }

  predicate IsKeywordText(t: string) {
    t != "" && !IsInitialNumber(t[0]) && forall k :: 0 <= k < |t| ==> IsKeyword(t[k])
  }

  predicate IsQuotedText(t: string) {
    |t| >= 2 && (t[0] == '\'' || t[0] == '"') && QuoteEnd(t, 1, t[0]) == |t| - 1
  }

  predicate IsFixedText(t: string) {
    t in ["->>", "::", ":=", "->", "**", "//"] || (|t| == 1 && IsSingleByteOperator(t[0]) && t[0] != '$')
  }

  /** The texts the tokenizer can yield as one ordinary token. */
  predicate IsTokenText(t: string) {
    IsFixedText(t) || IsNumberText(t) || IsOperatorText(t) || IsKeywordText(t) || IsQuotedText(t)
  }

  /** Every ordinary token is such a text. */
  lemma WordIsTokenText(sql: string, i: nat, last: nat)
    requires last <= i < |sql| && sql[i] != '$' && Next(sql, i, last).Word?
    ensures IsTokenText(Next(sql, i, last).text)
  {
    hide IsFixedText, IsNumberText, IsOperatorText, IsKeywordText, IsQuotedText, RunEnd, CommentEnd;
    if sql[i] == '\'' || sql[i] == '"' {
      QuotedIsTokenText(sql, i, QuoteEnd(sql, i + 1, sql[i]));
    } else {
      assert i + 1 < |sql| ==> sql[i..i + 2] == [sql[i], sql[i + 1]];
      PlainIsTokenText(sql, i, last);
    }
  }

  lemma PlainIsTokenText(sql: string, i: nat, last: nat)
    requires last <= i < |sql| && sql[i] !in ['\'', '"', ';', '$'] && !IsSpace(sql[i])
    requires i + 1 < |sql| ==> sql[i..i + 2] != "--" && sql[i..i + 2] != "/*"
    requires Next(sql, i, last).Word?
    ensures IsTokenText(Next(sql, i, last).text)
  {
    PlainPiece(sql, i, last);
    hide Next;
    var c, t := sql[i], Next(sql, i, last).text;
    if SpecialOperator(sql, i) > 0 {
      assert IsFixedText(t);
    } else if IsSingleByteOperator(c) {
      assert IsFixedText(t);
    } else if IsInitialNumber(c) {
      NumberIsTokenText(sql, i, RunEnd(sql, i + 1, IsNumber));
    } else if IsPunctuation(c) {
      OperatorIsTokenText(sql, i, RunEnd(sql, i + 1, IsOperator));
    } else {
      KeywordIsTokenText(sql, i, RunEnd(sql, i + 1, IsKeyword));
    }
  }

  lemma NumberIsTokenText(sql: string, i: nat, e: nat)
    requires i < e <= |sql| && IsInitialNumber(sql[i]) && forall k :: i + 1 <= k < e ==> IsNumber(sql[k])
    ensures IsNumberText(sql[i..NumberEnd(sql, i, e)])
  {
    var t := sql[i..NumberEnd(sql, i, e)];
    forall k | 0 <= k < |t| ensures IsNumber(t[k]) {
      assert t[k] == sql[i + k];
    }
  }

  lemma KeywordIsTokenText(sql: string, i: nat, e: nat)
    requires i < e <= |sql| && IsKeyword(sql[i]) && !IsInitialNumber(sql[i])
    requires forall k :: i + 1 <= k < e ==> IsKeyword(sql[k])
    ensures IsKeywordText(sql[i..e])
  {
    var t := sql[i..e];
    forall k | 0 <= k < |t| ensures IsKeyword(t[k]) {
      assert t[k] == sql[i + k];
    }
  }

  lemma OperatorIsTokenText(sql: string, i: nat, e: nat)
    requires i < e <= |sql| && SpecialOperator(sql, i) == 0 && IsOperator(sql[i])
    requires !(sql[i] == '/' && i + 1 < |sql| && sql[i + 1] == '*')
    requires forall k :: i + 1 <= k < e ==> IsOperator(sql[k])
    ensures IsOperatorText(sql[i..e])
  {
    var t := sql[i..e];
    forall k | 0 <= k < |t| ensures IsOperator(t[k]) {
      assert t[k] == sql[i + k];
    }
    if |t| >= 2 {
      assert t[..2] == sql[i..i + 2];
      assert sql[i..i + 2] == [sql[i], sql[i + 1]];
    }
  }

  /** Quotes are paired up inside a token just as they are in the text around it. */
  lemma {:induction false} QuotesInside(sql: string, i: nat, k: nat, e: nat, q: char)
    requires i < k <= e < |sql| && QuoteEnd(sql, k, q) == e
    ensures QuoteEnd(sql[i..e + 1], k - i, q) == e - i
    decreases e - k
  {
    var t := sql[i..e + 1];
    if k < e {
      assert t[k - i] == sql[k] && t[k + 1 - i] == sql[k + 1];
      QuotesInside(sql, i, if sql[k] == q then k + 2 else k + 1, e, q);
    }
  }

  lemma QuotedIsTokenText(sql: string, i: nat, e: nat)
    requires i < |sql| && (sql[i] == '\'' || sql[i] == '"') && QuoteEnd(sql, i + 1, sql[i]) == e < |sql|
    ensures IsQuotedText(sql[i..e + 1])
  {
    QuotesInside(sql, i, i + 1, e, sql[i]);
  }

  /** Dollar-quoted contents that keep their meaning in single quotes: every quote is doubled. */
  predicate QuotesDoubled(s: string) {
    s == "" ||
    (if s[0] != '\'' then QuotesDoubled(s[1..]) else |s| >= 2 && s[1] == '\'' && QuotesDoubled(s[2..]))
  }

  lemma {:induction false} QuotesDoubledEnd(s: string, k: nat)
    requires 1 <= k <= |s| + 1
    ensures QuoteEnd("'" + s + "'", k, '\'') == |s| + 1 <==> QuotesDoubled(s[k - 1..])
    decreases |s| + 1 - k
  {
    var t := "'" + s + "'";
    assert forall j :: 0 <= j < |s| ==> t[j + 1] == s[j];
    if k <= |s| {
      if t[k] != '\'' {
        QuotesDoubledEnd(s, k + 1);
        assert s[k - 1..][1..] == s[k..];
      } else if k + 1 <= |s| && t[k + 1] == '\'' {
        QuotesDoubledEnd(s, k + 2);
        assert s[k - 1..][2..] == s[k + 1..];
      } else if k == |s| {
        assert t[k + 1] == '\'';
        assert QuoteEnd(t, k, '\'') == QuoteEnd(t, k + 2, '\'') == |t|;
      }
    }
  }

  /** The token of a dollar-quoted string reads back as one token exactly when its quotes are doubled. */
  lemma DollarTokenText(content: string)
    ensures IsTokenText("'" + content + "'") <==> QuotesDoubled(content)
  {
    var t := "'" + content + "'";
    assert t[0] == '\'';
    QuotesDoubledEnd(content, 1);
    assert content[0..] == content;
    assert IsTokenText(t) <==> IsQuotedText(t);
  }

  // ---------- reading a printed token back ----------

  /** Token `t` is printed at `c`, with a blank behind it. */
  ghost predicate PrintedAt(sql: string, c: nat, t: string) {
    c + |t| < |sql| && sql[c..c + |t|] == t && sql[c + |t|] == ' '
  }

  lemma CharAt(sql: string, c: nat, t: string, k: nat)
    requires PrintedAt(sql, c, t) && k < |t|
    ensures sql[c + k] == t[k]
  {
    assert sql[c..c + |t|][k] == t[k];
  }

  lemma {:induction false} RunRead(sql: string, c: nat, i: nat, e: nat, p: char -> bool)
    requires c <= i <= e < |sql| && !p(sql[e]) && forall k :: i <= k < e ==> p(sql[k])
    ensures RunEnd(sql, i, p) == e
    decreases e - i
  {
    if i < e {
      RunRead(sql, c, i + 1, e, p);
    }
  }

  lemma NoSpecialOperator(sql: string, i: nat)
    requires i < |sql| && (i + 1 < |sql| ==> sql[i..i + 2] !in ["::", ":=", "->", "**", "//"])
    ensures SpecialOperator(sql, i) == 0
  {
    assert i + 2 < |sql| ==> sql[i..i + 2] == sql[i..i + 3][..2];
    assert "->>"[..2] == "->";
  }

  lemma NumberRead(sql: string, c: nat, last: nat, t: string)
    requires last <= c && PrintedAt(sql, c, t) && IsNumberText(t)
    ensures Next(sql, c, last) == Word(t, c + |t|)
  {
    forall k | 0 <= k < |t| ensures sql[c + k] == t[k] { CharAt(sql, c, t, k); }
    forall k | c + 1 <= k < c + |t| ensures IsNumber(sql[k]) { CharAt(sql, c, t, k - c); }
    RunRead(sql, c, c + 1, c + |t|, IsNumber);
    assert sql[c] == t[0] && sql[c + |t| - 1] == t[|t| - 1];
    NoSpecialOperator(sql, c);
  }

  lemma OperatorRead(sql: string, c: nat, last: nat, t: string)
    requires last <= c && PrintedAt(sql, c, t) && IsOperatorText(t)
    ensures Next(sql, c, last) == Word(t, c + |t|)
  {
    forall k | c <= k < c + |t| ensures IsOperator(sql[k]) { CharAt(sql, c, t, k - c); }
    RunRead(sql, c, c + 1, c + |t|, IsOperator);
    assert sql[c..c + 2] == [sql[c], sql[c + 1]];
    if |t| >= 2 {
      assert t[..2] == sql[c..c + 2];
    }
    NoSpecialOperator(sql, c);
  }

  lemma KeywordRead(sql: string, c: nat, last: nat, t: string)
    requires last <= c && PrintedAt(sql, c, t) && IsKeywordText(t)
    ensures Next(sql, c, last) == Word(t, c + |t|)
  {
    forall k | c <= k < c + |t| ensures IsKeyword(sql[k]) { CharAt(sql, c, t, k - c); }
    RunRead(sql, c, c + 1, c + |t|, IsKeyword);
    CharAt(sql, c, t, 0);
    NoSpecialOperator(sql, c);
  }

  lemma {:induction false} QuotesOutside(sql: string, c: nat, t: string, k: nat, q: char)
    requires PrintedAt(sql, c, t) && k < |t| && QuoteEnd(t, k, q) == |t| - 1 && q != ' '
    ensures QuoteEnd(sql, c + k, q) == c + |t| - 1
    decreases |t| - k
  {
    CharAt(sql, c, t, k);
    if k + 1 < |t| {
      CharAt(sql, c, t, k + 1);
      QuotesOutside(sql, c, t, if t[k] == q then k + 2 else k + 1, q);
    }
  }

  lemma QuotedRead(sql: string, c: nat, last: nat, t: string)
    requires last <= c && PrintedAt(sql, c, t) && IsQuotedText(t)
    ensures Next(sql, c, last) == Word(t, c + |t|)
  {
    CharAt(sql, c, t, 0);
    QuotesOutside(sql, c, t, 1, t[0]);
  }

  lemma SingleRead(sql: string, c: nat, last: nat, t: string)
    requires last <= c && PrintedAt(sql, c, t) && |t| == 1 && IsSingleByteOperator(t[0]) && t[0] != '$'
    ensures Next(sql, c, last) == Word(t, c + |t|)
  {
    hide Next, SpecialOperator;
    CharAt(sql, c, t, 0);
    assert sql[c..c + 2] == [t[0], ' '];
    NoSpecialOperator(sql, c);
    PlainPiece(sql, c, last);
    assert t == [sql[c]];
  }

  lemma SpecialRead(sql: string, c: nat, last: nat, t: string)
    requires last <= c && PrintedAt(sql, c, t) && t in ["->>", "::", ":=", "->", "**", "//"]
    ensures Next(sql, c, last) == Word(t, c + |t|)
  {
    hide QuotePiece, DollarPiece, NumberPiece, RunPiece, RunEnd, CommentEnd;
    assert |t| == 2 && c + 2 < |sql| ==> sql[c..c + 3][2] == ' ';
    assert SpecialOperator(sql, c) == |t|;
    CharAt(sql, c, t, 0);
    CharAt(sql, c, t, 1);
  }

  lemma FixedRead(sql: string, c: nat, last: nat, t: string)
    requires last <= c && PrintedAt(sql, c, t) && IsFixedText(t)
    ensures Next(sql, c, last) == Word(t, c + |t|)
  {
    hide Next, PrintedAt;
    if |t| == 1 {
      SingleRead(sql, c, last, t);
    } else {
      SpecialRead(sql, c, last, t);
    }
  }

  lemma TokenRead(sql: string, c: nat, last: nat, t: string)
    requires last <= c && PrintedAt(sql, c, t) && IsTokenText(t)
    ensures Next(sql, c, last) == Word(t, c + |t|) && t != ""
  {
    hide Next;
    if IsFixedText(t) {
      FixedRead(sql, c, last, t);
    } else if IsNumberText(t) {
      NumberRead(sql, c, last, t);
    } else if IsOperatorText(t) {
      OperatorRead(sql, c, last, t);
    } else if IsKeywordText(t) {
      KeywordRead(sql, c, last, t);
    } else {
      QuotedRead(sql, c, last, t);
    }
  }

  // ---------- stability ----------

  /** The tokens with a blank behind each. */
  function Print(ts: seq<string>): string {
    if ts == [] then "" else ts[0] + " " + Print(ts[1..])
  }

  /** What tokenizing the print of `ts` at position `at` should yield. */
  function Printed(ts: seq<string>, at: nat): seq<Event> {
    if ts == [] then [] else [Token(ts[0], at, at + |ts[0]|)] + Printed(ts[1..], at + |ts[0]| + 1)
  }

  /** What is printed at `c`. */
  lemma PrintedFirst(sql: string, c: nat, ts: seq<string>)
    requires c <= |sql| && ts != [] && sql[c..] == Print(ts)
    ensures PrintedAt(sql, c, ts[0]) && sql[c + |ts[0]| + 1..] == Print(ts[1..])
  {
    var t, rest := ts[0], Print(ts[1..]);
    assert sql[c..] == t + " " + rest;
    assert sql[c..c + |t|] == sql[c..][..|t|] == t;
    assert sql[c + |t|] == sql[c..][|t|] == ' ';
    assert sql[c + |t| + 1..] == sql[c..][|t| + 1..] == rest;
  }

  lemma {:induction false} PrintRead(sql: string, c: nat, last: nat, ts: seq<string>)
    requires forall t :: t in ts ==> IsTokenText(t)
    requires last <= c <= |sql| && sql[c..] == Print(ts) && (ts == [] ==> last == c)
    ensures LexFrom(sql, c, last) == Lexed(Printed(ts, c), STANDARD, |sql|)
    decreases |ts|
  {
    hide IsTokenText, Next;
    if ts != [] {
      var t := ts[0];
      PrintedFirst(sql, c, ts);
      TokenRead(sql, c, last, t);
      var d := c + |t|;
      BlankRead(sql, d);
      PrintRead(sql, d + 1, d + 1, ts[1..]);
    }
  }

  lemma BlankRead(sql: string, d: nat)
    requires d < |sql| && sql[d] == ' '
    ensures LexFrom(sql, d, d) == LexFrom(sql, d + 1, d + 1)
  {
    hide QuotePiece, DollarPiece, NumberPiece, RunPiece, RunEnd, CommentEnd, SpecialOperator;
    assert Next(sql, d, d) == Nothing(d + 1, d + 1);
    hide Next;
  }

  lemma {:induction false} CollectPrinted(ts: seq<string>, at: nat, before: seq<Event>)
    ensures Collect(before + Printed(ts, at)) == Script(Collect(before).statements, Collect(before).tokens + ts)
    decreases |ts|
  {
    if ts == [] {
      assert before + [] == before;
      assert Collect(before).tokens + ts == Collect(before).tokens;
    } else {
      var e := Token(ts[0], at, at + |ts[0]|);
      var rest := Printed(ts[1..], at + |ts[0]| + 1);
      assert before + ([e] + rest) == (before + [e]) + rest;
      CollectSnoc(before, e);
      CollectPrinted(ts[1..], at + |ts[0]| + 1, before + [e]);
      assert (Collect(before).tokens + [ts[0]]) + ts[1..] == Collect(before).tokens + ts;
    }
  }

  lemma CollectAllPrinted(ts: seq<string>)
    ensures Collect(Printed(ts, 0)) == Script([], ts)
  {
    assert Collect([]) == Script([], []);
    hide Collect, Printed;
    CollectPrinted(ts, 0, []);
    assert [] + Printed(ts, 0) == Printed(ts, 0);
    assert [] + ts == ts;
  }

  lemma NoLastWord(sql: string)
    requires Lex(sql).state == STANDARD && Lex(sql).last == |sql|
    ensures LastWord(sql) == ""
  {
    hide LexFrom;
  }

  /** Tokenizing the print of tokens yields one statement with just those tokens, and no last word. */
  lemma TokenizePrint(ts: seq<string>)
    requires forall t :: t in ts ==> IsTokenText(t)
    ensures var r := Lex(Print(ts));
      Collect(r.events) == Script([], ts) && r.state == STANDARD && LastWord(Print(ts)) == ""
  {
    hide IsTokenText, LexFrom, Collect, Print, Printed, LastWord;
    var sql := Print(ts);
    assert sql[0..] == sql;
    PrintRead(sql, 0, 0, ts);
    NoLastWord(sql);
    CollectAllPrinted(ts);
  }

  lemma DollarInQuotes(sql: string, i: nat, last: nat)
    requires last <= i < |sql| && sql[i] == '$' && Next(sql, i, last).Word?
    ensures Next(sql, i, last).text != "" && Next(sql, i, last).text[0] == '\''
  {
    hide RunEnd, DollarEnd, ClosesDollar;
  }

  /** Every token is such a text, or else the content of a dollar-quoted string in single quotes. */
  lemma {:induction false} TokensAreTexts(sql: string, i: nat, last: nat, k: nat)
    requires last <= i <= |sql| && k < |LexFrom(sql, i, last).events|
    ensures var e := LexFrom(sql, i, last).events[k];
      e.Token? ==> IsTokenText(e.text) || (e.text != "" && e.text[0] == '\'')
    decreases |sql| - i
  {
    hide IsTokenText, Next;
    match Next(sql, i, last)
    case Nothing(next, l) => TokensAreTexts(sql, next, l, k);
    case Word(text, next) =>
      if k > 0 {
        TokensAreTexts(sql, next, next, k - 1);
      } else if sql[i] == '$' {
        DollarInQuotes(sql, i, last);
      } else {
        WordIsTokenText(sql, i, last);
      }
    case Semicolon =>
      if k > 0 {
        TokensAreTexts(sql, i + 1, i + 1, k - 1);
      }
    case CutOff(_, _) =>
  }

  lemma {:induction false} CollectedTokens(events: seq<Event>, ts: seq<string>, t: string)
    requires (ts == Collect(events).tokens || ts in Collect(events).statements) && t in ts
    ensures exists k :: 0 <= k < |events| && events[k].Token? && events[k].text == t
    decreases |events|
  {
    if events != [] {
      var n := |events| - 1;
      var before := Collect(events[..n]);
      if events[n].Token? && events[n].text == t {
      } else if ts == Collect(events).tokens && events[n].Token? {
        CollectedTokens(events[..n], before.tokens, t);
      } else if ts in before.statements {
        CollectedTokens(events[..n], ts, t);
      } else {
        CollectedTokens(events[..n], before.tokens, t);
      }
    }
  }

  lemma {:induction false} CollectedOne(events: seq<Event>)
    requires Collect(events).statements == []
    ensures |Collect(events).tokens| == |events|
    ensures forall k :: 0 <= k < |events| ==> events[k].Token? && events[k].text == Collect(events).tokens[k]
    decreases |events|
  {
    if events != [] {
      CollectedOne(events[..|events| - 1]);
    }
  }

  /** The events are just these tokens. */
  ghost predicate AreTokens(events: seq<Event>, ts: seq<string>) {
    |events| == |ts| && forall k :: 0 <= k < |ts| ==> events[k].Token? && events[k].text == ts[k]
  }

  lemma AreTokensRest(e: Event, rest: seq<Event>, ts: seq<string>)
    requires ts != [] && AreTokens([e] + rest, ts)
    ensures e.Token? && e.text == ts[0] && AreTokens(rest, ts[1..])
  {
    assert ([e] + rest)[0] == e;
    assert forall k :: 0 <= k < |rest| ==> ([e] + rest)[k + 1] == rest[k];
  }

  lemma QuoteReadBack(sql: string, c: nat, last: nat)
    requires last <= c < |sql| && sql[c] == '\'' && LexFrom(sql, c, last).state == STANDARD
    ensures Next(sql, c, last).Word? && IsTokenText(Next(sql, c, last).text)
  {
    assert Next(sql, c, last) == QuotePiece(sql, c, STRING_LITERAL);
    assert Next(sql, c, last).Word?;
    WordIsTokenText(sql, c, last);
  }

  /** When the same tokens are read back, each of them is a token text. */
  lemma {:induction false} ReadBackTexts(sql: string, c: nat, last: nat, ts: seq<string>)
    requires forall t :: t in ts ==> IsTokenText(t) || (t != "" && t[0] == '\'')
    requires last <= c <= |sql| && sql[c..] == Print(ts)
    requires LexFrom(sql, c, last).state == STANDARD && AreTokens(LexFrom(sql, c, last).events, ts)
    ensures forall t :: t in ts ==> IsTokenText(t)
    decreases |ts|
  {
    hide IsTokenText, Next, Print, PrintedAt, AreTokens;
    if ts != [] {
      var t := ts[0];
      PrintedFirst(sql, c, ts);
      PrintedIn(sql, c, t);
      if IsTokenText(t) {
        TokenRead(sql, c, last, t);
        var d := c + |t|;
        BlankRead(sql, d);
        AreTokensRest(Token(t, c, d), LexFrom(sql, d, d).events, ts);
        ReadBackTexts(sql, d + 1, d + 1, ts[1..]);
        assert ts == [t] + ts[1..];
      } else {
        CharAt(sql, c, t, 0);
        QuoteReadBack(sql, c, last);
        var p := Next(sql, c, last);
        AreTokensRest(Token(p.text, c, p.next), LexFrom(sql, p.next, p.next).events, ts);
      }
    }
  }

  lemma PrintedIn(sql: string, c: nat, t: string)
    requires PrintedAt(sql, c, t)
    ensures c + |t| < |sql| && sql[c + |t|] == ' '
  {
  }

  /** Tokenizing the print yields just these tokens, and no last word. */
  ghost predicate IsStable(ts: seq<string>) {
    var r := Lex(Print(ts));
    Collect(r.events) == Script([], ts) && r.state == STANDARD && LastWord(Print(ts)) == ""
  }

  /** The tokens of a statement, printed with blanks between them, are tokenized to the same tokens exactly if each is
      a token text: all but dollar-quoted strings are, and these are if their single quotes are doubled. */
  lemma TokenizingIsStable(sql: string, ts: seq<string>)
    requires ts == Collect(Lex(sql).events).tokens || ts in Collect(Lex(sql).events).statements
    ensures IsStable(ts) <==> forall t :: t in ts ==> IsTokenText(t)
  {
    hide IsTokenText, LexFrom, Collect;
    if forall t :: t in ts ==> IsTokenText(t) {
      TokenizePrint(ts);
    }
    if IsStable(ts) {
      forall t | t in ts ensures IsTokenText(t) || (t != "" && t[0] == '\'') {
        CollectedTokens(Lex(sql).events, ts, t);
        var k :| 0 <= k < |Lex(sql).events| && Lex(sql).events[k].Token? && Lex(sql).events[k].text == t;
        TokensAreTexts(sql, 0, 0, k);
      }
      CollectedOne(Lex(Print(ts)).events);
      assert Print(ts)[0..] == Print(ts);
      ReadBackTexts(Print(ts), 0, 0, ts);
    }
  }

  /** A dollar sign that opens nothing yields no token, but at the end of the text it is in the last word. */
  lemma DollarIsLastWord()
    ensures Lex("$").events == [] && LastWord("$") == "$"
  {
    assert Next("$", 0, 0) == Nothing(1, 0);
  }

  // ---------- statements ----------

  /** The tokens between semicolons, read from the front: the statements, and the tokens behind the last semicolon. */
  function Split(events: seq<Event>): (ts: seq<seq<string>>)
    ensures ts != []
  {
    if events == [] then [[]]
    else
      var rest := Split(events[1..]);
      match events[0]
      case Token(text, _, _) => [[text] + rest[0]] + rest[1..]
      case StatementEnd(_) => [[]] + rest
  }

  lemma InFront(ts: seq<seq<string>>, first: string, last: string)
    requires ts != []
    ensures var n, more := |ts| - 1, ts[..|ts| - 1] + [ts[|ts| - 1] + [last]];
      var before := [[first] + ts[0]] + ts[1..];
      [[first] + more[0]] + more[1..] == before[..n] + [before[n] + [last]]
  {
    if |ts| == 1 {
      assert [first] + (ts[0] + [last]) == [first] + ts[0] + [last];
    }
  }

  lemma {:induction false} SplitSnoc(events: seq<Event>, e: Event)
    ensures var ts := Split(events);
      Split(events + [e]) ==
      match e
      case Token(text, _, _) => ts[..|ts| - 1] + [ts[|ts| - 1] + [text]]
      case StatementEnd(_) => ts + [[]]
    decreases |events|
  {
    if events == [] {
      assert [e][1..] == [] && [] + [e] == [e] && Split([]) == [[]];
      if e.Token? {
        assert [e.text] + [] == [] + [e.text];
      }
    } else {
      SplitSnoc(events[1..], e);
      assert (events + [e])[1..] == events[1..] + [e] && (events + [e])[0] == events[0];
      if events[0].Token? && e.Token? {
        InFront(Split(events[1..]), events[0].text, e.text);
      }
    }
  }

  /** Each statement has just the tokens between two semicolons. */
  lemma {:induction false} CollectSplits(events: seq<Event>)
    ensures var s := Collect(events); s.statements + [s.tokens] == Split(events)
    decreases |events|
  {
    if events != [] {
      var init, e := events[..|events| - 1], events[|events| - 1];
      assert events == init + [e];
      CollectSplits(init);
      CollectSnoc(init, e);
      SplitSnoc(init, e);
    }
  }
}
