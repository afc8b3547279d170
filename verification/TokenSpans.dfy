/** What the tokens of a text are, span by span, and that the lexer leaves nothing out: every byte belongs to a token,
    or to a space, a comment or a dollar sign that opens nothing, or to what the end of the text cuts off. */
module TokenSpans {
  import opened Characters
  import opened Quotes
  import opened Lexing
  import opened Tokenizer

  // ---------- spans ----------

  /** `s` stands at `i`. */
  predicate StandsAt(sql: string, i: nat, s: string) {
    i + |s| <= |sql| && sql[i..i + |s|] == s
  }

  predicate StandsNowhere(sql: string, from: nat, to: nat, s: string) {
    forall k :: from <= k < to ==> !StandsAt(sql, k, s)
  }

  predicate IsNeverQuoted(sql: string, i: nat, q: char) {
    forall e :: i < e <= |sql| ==> !EndsQuoted(sql, i, e, q)
  }

  predicate IsLineComment(sql: string, a: nat, b: nat) {
    && StandsAt(sql, a, "--") && a + 2 < b <= |sql| && IsNewline(sql[b - 1])
    && forall k :: a + 2 <= k < b - 1 ==> !IsNewline(sql[k])
  }

  predicate IsBlockComment(sql: string, a: nat, b: nat) {
    && StandsAt(sql, a, "/*") && a + 4 <= b <= |sql| && StandsAt(sql, b - 2, "*/")
    && StandsNowhere(sql, a + 2, b - 2, "*/")
  }

  /** The marker from the dollar sign at `a` to the one at `d` opens a string. */
  predicate IsOpening(sql: string, a: nat, d: nat) {
    && a < d < |sql| && sql[a] == '$' && !IsDigit(sql[a + 1]) && sql[d] == '$'
    && forall k :: a < k < d ==> IsDollarTag(sql[k])
  }

  ghost predicate OpensNothing(sql: string, a: nat) {
    a < |sql| && sql[a] == '$' && forall d :: a < d < |sql| ==> !IsOpening(sql, a, d)
  }

  /** A span that yields no token. */
  ghost predicate IsSkipped(sql: string, a: nat, b: nat) {
    && a < b <= |sql|
    && (|| (b == a + 1 && IsSpace(sql[a])) || IsLineComment(sql, a, b) || IsBlockComment(sql, a, b)
        || (b == a + 1 && OpensNothing(sql, a)))
  }

  /** From behind `a` up to `b` and no further, the bytes are such. */
  predicate IsRun(sql: string, a: nat, b: nat, p: char -> bool) {
    a < b < |sql| && !p(sql[b]) && forall k :: a < k < b ==> p(sql[k])
  }

  /** A number goes up to its last digit or dot; other bytes of a number may come behind. */
  ghost predicate IsNumberSpan(sql: string, a: nat, b: nat) {
    && a < b <= |sql| && IsInitialNumber(sql[b - 1])
    && exists e :: b <= e && IsRun(sql, a, e, IsNumber) && forall k :: b <= k < e ==> !IsInitialNumber(sql[k])
  }

  /** The bytes from the marker of the opening at `a`, `d` up to the first marker that is the same. */
  predicate IsDollarQuoted(sql: string, a: nat, d: nat, e: nat) {
    IsOpening(sql, a, d) && d < e && StandsAt(sql, e, sql[a..d + 1]) && StandsNowhere(sql, d + 1, e, sql[a..d + 1])
  }

  predicate StartsPlain(sql: string, a: nat) {
    && a < |sql| && sql[a] !in ['\'', '"', ';', '$'] && !IsSpace(sql[a])
    && !StandsAt(sql, a, "--") && !StandsAt(sql, a, "/*")
  }

  const SPECIALS := ["::", ":=", "->", "**", "//"]

  /** A plain token: the longest operator of several bytes, or else a byte of its own, a number, or a run of operator
      or of other bytes. */
  ghost predicate IsPlainSpan(sql: string, a: nat, b: nat) {
    && StartsPlain(sql, a) && a < b <= |sql|
    && if StandsAt(sql, a, "->>") then b == a + 3
       else if exists s :: s in SPECIALS && StandsAt(sql, a, s) then b == a + 2
       else if IsSingleByteOperator(sql[a]) then b == a + 1
       else if IsInitialNumber(sql[a]) then IsNumberSpan(sql, a, b)
       else if IsPunctuation(sql[a]) then IsRun(sql, a, b, IsOperator)
       else IsRun(sql, a, b, IsKeyword)
  }

  ghost predicate IsWordSpan(sql: string, a: nat, b: nat, text: string) {
    && a < b <= |sql|
    && if sql[a] == '\'' || sql[a] == '"' then EndsQuoted(sql, a + 1, b, sql[a]) && text == sql[a..b]
       else if sql[a] == '$' then
         exists d: nat, e: nat ::
           IsDollarQuoted(sql, a, d, e) && b == e + d + 1 - a && text == "'" + sql[d + 1..e] + "'"
       else IsPlainSpan(sql, a, b) && text == sql[a..b]
  }

  /** The end of the text cuts off what begins at `a`. */
  ghost predicate IsCutOff(sql: string, a: nat, state: TokenizeState) {
    a < |sql| &&
    match state
    case STANDARD => false
    case STRING_LITERAL => sql[a] == '\'' && IsNeverQuoted(sql, a + 1, '\'')
    case QUOTED_IDENTIFIER => sql[a] == '"' && IsNeverQuoted(sql, a + 1, '"')
    case SINGLE_LINE_COMMENT => StandsAt(sql, a, "--") && forall k :: a + 2 <= k < |sql| ==> !IsNewline(sql[k])
    case MULTI_LINE_COMMENT => StandsAt(sql, a, "/*") && StandsNowhere(sql, a + 2, |sql|, "*/")
    case DOLLAR_QUOTED_STRING =>
      exists d: nat :: IsOpening(sql, a, d) && StandsNowhere(sql, d + 1, |sql|, sql[a..d + 1])
    case NUMERIC => IsLastRun(sql, a, IsNumber) && IsInitialNumber(sql[a])
    case OPERATOR => IsLastRun(sql, a, IsOperator) && !IsInitialNumber(sql[a]) && IsPunctuation(sql[a])
    case KEYWORD => IsLastRun(sql, a, IsKeyword) && !IsInitialNumber(sql[a]) && !IsPunctuation(sql[a])
  }

  /** The run from `a` on, which begins no operator of its own, goes to the end of the text. */
  ghost predicate IsLastRun(sql: string, a: nat, p: char -> bool) {
    && StartsPlain(sql, a) && !StandsAt(sql, a, "->>") && (forall s :: s in SPECIALS ==> !StandsAt(sql, a, s))
    && !IsSingleByteOperator(sql[a]) && forall k :: a < k < |sql| ==> p(sql[k])
  }

  // ---------- the lexer reads spans ----------

  lemma StandsTwo(sql: string, i: nat, c: char, d: char)
    ensures StandsAt(sql, i, [c, d]) <==> i + 1 < |sql| && sql[i] == c && sql[i + 1] == d
  {
    if i + 1 < |sql| {
      assert sql[i..i + 2] == [sql[i], sql[i + 1]];
    }
  }

  lemma {:induction false} QuoteEndIs(sql: string, i: nat, q: char)
    requires i <= |sql|
    ensures var e := QuoteEnd(sql, i, q);
      if e < |sql| then EndsQuoted(sql, i, e + 1, q) else IsNeverQuoted(sql, i, q)
    decreases |sql| - i
  {
    if i < |sql| {
      if sql[i] != q {
        QuoteEndIs(sql, i + 1, q);
        OneMoreQuoted(sql, i, q);
      } else if i + 1 < |sql| && sql[i + 1] == q {
        QuoteEndIs(sql, i + 2, q);
        TwoMoreQuoted(sql, i, q);
      } else {
        assert sql[i..i] == "";
      }
    }
  }

  /** What the lexer finds at `i` is a span. */
  ghost predicate IsSpan(sql: string, i: nat, p: Piece) {
    match p
    case Nothing(next, _) => IsSkipped(sql, i, next)
    case Word(text, next) => IsWordSpan(sql, i, next, text)
    case Semicolon => i < |sql| && sql[i] == ';'
    case CutOff(state, _) => IsCutOff(sql, i, state)
  }

  lemma QuoteIsSpan(sql: string, i: nat, last: nat)
    requires last <= i < |sql| && (sql[i] == '\'' || sql[i] == '"')
    ensures IsSpan(sql, i, Next(sql, i, last))
  {
    hide EndsQuoted;
    QuoteEndIs(sql, i + 1, sql[i]);
  }

  lemma CommentIsSpan(sql: string, i: nat, last: nat)
    requires last <= i < |sql| && (StandsAt(sql, i, "--") || StandsAt(sql, i, "/*"))
    ensures IsSpan(sql, i, Next(sql, i, last))
  {
    StandsTwo(sql, i, '-', '-');
    StandsTwo(sql, i, '/', '*');
    forall k | i + 2 <= k < |sql| ensures StandsAt(sql, k, "*/") <==> ClosesComment(sql, k) {
      StandsTwo(sql, k, '*', '/');
    }
    hide StandsAt;
  }

  /** A string with a character on either side. */
  lemma StandsAround(sql: string, i: nat, c: char, s: string, d: char)
    ensures StandsAt(sql, i, [c] + s + [d]) <==>
            i + |s| + 1 < |sql| && sql[i] == c && sql[i + 1..i + 1 + |s|] == s && sql[i + 1 + |s|] == d
  {
    var whole, n := [c] + s + [d], |s|;
    if i + n + 1 < |sql| {
      var part := sql[i..i + n + 2];
      assert part == [sql[i]] + sql[i + 1..i + 1 + n] + [sql[i + 1 + n]];
      assert part[0] == sql[i] && part[1..n + 1] == sql[i + 1..i + 1 + n] && part[n + 1] == sql[i + 1 + n];
      assert whole[0] == c && whole[1..n + 1] == s && whole[n + 1] == d;
    }
  }

  /** A marker without a dollar sign inside stands where the lexer finds it. */
  lemma MarkerStands(sql: string, a: nat, d: nat, e: nat)
    requires IsOpening(sql, a, d) && e < |sql|
    ensures StandsAt(sql, e, sql[a..d + 1]) <==> ClosesDollar(sql, e, sql[a + 1..d])
  {
    var marker := sql[a + 1..d];
    assert sql[a..d + 1] == ['$'] + marker + ['$'];
    StandsAround(sql, e, '$', marker, '$');
    var n := |marker|;
    if e + 1 + n < |sql| && sql[e + 1..e + 1 + n] == marker && sql[e + 1 + n] == '$' {
      forall k | e + 1 <= k < e + 1 + n ensures IsNotDollar(sql[k]) {
        assert sql[k] == sql[e + 1..e + 1 + n][k - e - 1] == marker[k - e - 1] == sql[a + k - e];
      }
      RunEndIs(sql, e + 1, e + 1 + n, IsNotDollar);
    }
    hide StandsAt, RunEnd;
  }

  lemma {:induction false} RunEndIs(sql: string, i: nat, e: nat, p: char -> bool)
    requires i <= e <= |sql| && (e < |sql| ==> !p(sql[e])) && forall k :: i <= k < e ==> p(sql[k])
    ensures RunEnd(sql, i, p) == e
    decreases e - i
  {
    if i < e {
      RunEndIs(sql, i + 1, e, p);
    }
  }

  lemma DollarIsSpan(sql: string, i: nat, last: nat)
    requires last <= i < |sql| && sql[i] == '$'
    ensures IsSpan(sql, i, Next(sql, i, last))
  {
    hide RunEnd, DollarEnd, ClosesDollar, StandsAt;
    assert Next(sql, i, last) == DollarPiece(sql, i, last);
    hide Next;
    var d := if i + 1 < |sql| then RunEnd(sql, i + 1, IsDollarTag) else |sql|;
    if i + 1 < |sql| && !IsDigit(sql[i + 1]) && d < |sql| && sql[d] == '$' {
      assert IsOpening(sql, i, d);
      var marker, whole := sql[i + 1..d], sql[i..d + 1];
      forall k | d < k < |sql| ensures StandsAt(sql, k, whole) <==> ClosesDollar(sql, k, marker) {
        MarkerStands(sql, i, d, k);
      }
      var e := DollarEnd(sql, d + 1, sql[i + 1..d]);
      assert e < |sql| ==> IsDollarQuoted(sql, i, d, e);
      assert StandsNowhere(sql, d + 1, e, sql[i..d + 1]);
    } else {
      forall c | i < c < |sql| ensures !IsOpening(sql, i, c) {
        if IsOpening(sql, i, c) {
          RunEndIs(sql, i + 1, c, IsDollarTag);
        }
      }
    }
  }

  ghost predicate IsSpecial(sql: string, a: nat) {
    StandsAt(sql, a, "->>") || exists s :: s in SPECIALS && StandsAt(sql, a, s)
  }

  lemma SpecialIs(sql: string, i: nat)
    requires i < |sql|
    ensures SpecialOperator(sql, i) ==
      if StandsAt(sql, i, "->>") then 3 else if exists s :: s in SPECIALS && StandsAt(sql, i, s) then 2 else 0
  {
    assert i + 2 < |sql| ==> |sql[i..i + 3]| == 3;
    if i + 1 < |sql| && sql[i..i + 2] in SPECIALS {
      assert StandsAt(sql, i, sql[i..i + 2]);
    }
  }

  lemma RunIsSpan(sql: string, i: nat, p: char -> bool, state: TokenizeState)
    requires i < |sql| && state != STANDARD
    ensures var r := RunPiece(sql, i, p, state);
      if r.CutOff? then r.state == state && forall k :: i < k < |sql| ==> p(sql[k])
      else r.Word? && IsRun(sql, i, r.next, p) && r.text == sql[i..r.next]
  {
  }

  lemma NumberIsSpan(sql: string, i: nat)
    requires i < |sql| && IsInitialNumber(sql[i])
    ensures var r := NumberPiece(sql, i);
      if r.CutOff? then r.state == NUMERIC && forall k :: i < k < |sql| ==> IsNumber(sql[k])
      else r.Word? && IsNumberSpan(sql, i, r.next) && r.text == sql[i..r.next]
  {
    var e := RunEnd(sql, i + 1, IsNumber);
    assert e < |sql| ==> IsRun(sql, i, e, IsNumber);
  }

  lemma PlainIsSpan(sql: string, i: nat, last: nat)
    requires last <= i && StartsPlain(sql, i)
    ensures IsSpan(sql, i, Next(sql, i, last))
  {
    StandsTwo(sql, i, '-', '-');
    StandsTwo(sql, i, '/', '*');
    assert i + 1 < |sql| ==> sql[i..i + 2] == [sql[i], sql[i + 1]];
    PlainPiece(sql, i, last);
    SpecialIs(sql, i);
    hide Next, RunPiece, NumberPiece, SpecialOperator;
    if SpecialOperator(sql, i) == 0 && !IsSingleByteOperator(sql[i]) {
      if IsInitialNumber(sql[i]) {
        NumberIsSpan(sql, i);
      } else if IsPunctuation(sql[i]) {
        RunIsSpan(sql, i, IsOperator, OPERATOR);
      } else {
        RunIsSpan(sql, i, IsKeyword, KEYWORD);
      }
    } else if SpecialOperator(sql, i) == 0 {
      assert sql[i..i + 1] == [sql[i]];
    }
  }

  /** Whatever the lexer finds is a span of its kind: a skipped one, a token, a semicolon, or what the end cuts off. */
  lemma NextIsSpan(sql: string, i: nat, last: nat)
    requires last <= i < |sql|
    ensures IsSpan(sql, i, Next(sql, i, last))
  {
    hide Next, StandsAt, IsSkipped, IsWordSpan, IsCutOff;
    var c := sql[i];
    if c == '\'' || c == '"' {
      QuoteIsSpan(sql, i, last);
    } else if c == ';' || IsSpace(c) {
      SimpleIsSpan(sql, i, last);
    } else if c == '$' {
      DollarIsSpan(sql, i, last);
    } else if StandsAt(sql, i, "--") || StandsAt(sql, i, "/*") {
      CommentIsSpan(sql, i, last);
    } else {
      PlainIsSpan(sql, i, last);
    }
  }

  lemma SimpleIsSpan(sql: string, i: nat, last: nat)
    requires last <= i < |sql| && (sql[i] == ';' || IsSpace(sql[i]))
    ensures IsSpan(sql, i, Next(sql, i, last))
  {
  }

  // ---------- the whole text ----------

  /** From `a` to `b` there is nothing but what yields no token. */
  ghost predicate IsGap(sql: string, a: nat, b: nat)
    decreases b - a
  {
    a == b || exists m: nat :: a < m <= b && IsSkipped(sql, a, m) && IsGap(sql, m, b)
  }

  ghost predicate IsEvent(sql: string, e: Event) {
    match e
    case Token(text, from, to) => IsWordSpan(sql, from, to, text)
    case StatementEnd(pos) => pos < |sql| && sql[pos] == ';'
  }

  function StartOf(e: Event): nat {
    match e
    case Token(_, from, _) => from
    case StatementEnd(pos) => pos
  }

  function EndOf(e: Event): nat {
    match e
    case Token(_, _, to) => to
    case StatementEnd(pos) => pos + 1
  }

  /** The events are the tokens and semicolons of the text from `i` on, with gaps between them; behind them there is
      a gap up to the end of the text, or up to what the end cuts off. */
  ghost predicate Covers(sql: string, i: nat, events: seq<Event>, state: TokenizeState)
    decreases |events|
  {
    if events == [] then
      exists c: nat :: i <= c && IsGap(sql, i, c) && if state == STANDARD then c == |sql| else IsCutOff(sql, c, state)
    else
      && i <= StartOf(events[0]) && IsGap(sql, i, StartOf(events[0])) && IsEvent(sql, events[0])
      && Covers(sql, EndOf(events[0]), events[1..], state)
  }

  lemma SkipsFirst(sql: string, i: nat, m: nat, events: seq<Event>, state: TokenizeState)
    requires i < m && IsSkipped(sql, i, m) && Covers(sql, m, events, state)
    ensures Covers(sql, i, events, state)
  {
    hide IsSkipped, IsCutOff, IsWordSpan;
    if events == [] {
      var c: nat :| m <= c && IsGap(sql, m, c) && if state == STANDARD then c == |sql| else IsCutOff(sql, c, state);
      assert IsGap(sql, i, c);
    }
  }

  /** The events of the lexer cover the text. */
  lemma {:induction false} LexCovers(sql: string, i: nat, last: nat)
    requires last <= i <= |sql|
    ensures var r := LexFrom(sql, i, last); Covers(sql, i, r.events, r.state)
    decreases |sql| - i
  {
    hide IsSkipped, IsCutOff, IsWordSpan, Next;
    if i == |sql| {
      assert IsGap(sql, i, i);
    } else {
      NextIsSpan(sql, i, last);
      assert IsGap(sql, i, i);
      match Next(sql, i, last)
      case Nothing(next, l) =>
        LexCovers(sql, next, l);
        SkipsFirst(sql, i, next, LexFrom(sql, next, l).events, LexFrom(sql, next, l).state);
      case Word(text, next) =>
        LexCovers(sql, next, next);
        FirstCovers(sql, Token(text, i, next), LexFrom(sql, next, next).events, LexFrom(sql, next, next).state);
      case Semicolon =>
        LexCovers(sql, i + 1, i + 1);
        FirstCovers(sql, StatementEnd(i), LexFrom(sql, i + 1, i + 1).events, LexFrom(sql, i + 1, i + 1).state);
      case CutOff(_, _) =>
    }
  }

  lemma FirstCovers(sql: string, e: Event, rest: seq<Event>, state: TokenizeState)
    requires IsEvent(sql, e) && Covers(sql, EndOf(e), rest, state)
    ensures Covers(sql, StartOf(e), [e] + rest, state)
  {
    hide IsEvent;
    assert ([e] + rest)[1..] == rest;
    assert IsGap(sql, StartOf(e), StartOf(e));
  }

  // ---------- no other reading ----------

  /** The same, but for where the last word is said to start. */
  predicate IsSame(p: Piece, r: Piece) {
    match p
    case Nothing(next, _) => r.Nothing? && r.next == next
    case Word(text, next) => r == p
    case Semicolon => r == p
    case CutOff(state, _) => r.CutOff? && r.state == state
  }

  lemma QuoteOnce(sql: string, i: nat, p: Piece, r: Piece)
    requires i < |sql| && (sql[i] == '\'' || sql[i] == '"') && IsSpan(sql, i, p) && IsSpan(sql, i, r)
    ensures IsSame(p, r)
  {
    hide AllDoubled;
    StandsTwo(sql, i, '-', '-');
    StandsTwo(sql, i, '/', '*');
    hide StandsAt;
    if p.Word? && r.Word? {
      EndsQuotedOnce(sql, i + 1, p.next, r.next, sql[i]);
    }
  }

  lemma CommentOnce(sql: string, i: nat, p: Piece, r: Piece)
    requires i < |sql| && (StandsAt(sql, i, "--") || StandsAt(sql, i, "/*")) && IsSpan(sql, i, p) && IsSpan(sql, i, r)
    ensures IsSame(p, r)
  {
    StandsTwo(sql, i, '-', '-');
    StandsTwo(sql, i, '/', '*');
    hide StandsAt;
  }

  lemma OpeningOnce(sql: string, i: nat, d: nat, d': nat)
    requires IsOpening(sql, i, d) && IsOpening(sql, i, d')
    ensures d == d'
  {
  }

  lemma DollarQuotedOnce(sql: string, i: nat, d: nat, e: nat, d': nat, e': nat)
    requires IsDollarQuoted(sql, i, d, e) && IsDollarQuoted(sql, i, d', e')
    ensures d == d' && e == e' && !OpensNothing(sql, i) && !IsCutOff(sql, i, DOLLAR_QUOTED_STRING)
  {
    OpeningOnce(sql, i, d, d');
    var marker := sql[i..d + 1];
    assert e < e' ==> !StandsAt(sql, e, marker);
    assert e' < e ==> !StandsAt(sql, e', marker);
    forall c: nat | IsOpening(sql, i, c) ensures c == d && !StandsNowhere(sql, c + 1, |sql|, sql[i..c + 1]) {
      OpeningOnce(sql, i, c, d);
    }
    hide StandsAt;
  }

  /** What a dollar sign can begin. */
  lemma DollarKinds(sql: string, i: nat, p: Piece)
    requires i < |sql| && sql[i] == '$' && IsSpan(sql, i, p)
    ensures p.Word? || (p.Nothing? && p.next == i + 1 && OpensNothing(sql, i)) ||
            (p.CutOff? && p.state == DOLLAR_QUOTED_STRING && !OpensNothing(sql, i))
  {
    StandsTwo(sql, i, '-', '-');
    StandsTwo(sql, i, '/', '*');
    hide StandsAt, IsWordSpan;
  }

  lemma DollarOnce(sql: string, i: nat, p: Piece, r: Piece)
    requires i < |sql| && sql[i] == '$' && IsSpan(sql, i, p) && IsSpan(sql, i, r)
    ensures IsSame(p, r)
  {
    DollarKinds(sql, i, p);
    DollarKinds(sql, i, r);
    if p.Word? {
      DollarWordOnce(sql, i, p, r);
    } else if r.Word? {
      DollarWordOnce(sql, i, r, p);
    }
    hide IsSpan, OpensNothing;
  }

  lemma DollarWordOnce(sql: string, i: nat, p: Piece, r: Piece)
    requires i < |sql| && sql[i] == '$' && IsSpan(sql, i, p) && IsSpan(sql, i, r) && p.Word?
    ensures r == p
  {
    hide IsSpan, IsDollarQuoted, OpensNothing, IsCutOff;
    DollarKinds(sql, i, r);
    var d, e := DollarWord(sql, i, p);
    DollarQuotedOnce(sql, i, d, e, d, e);
    CutOffOf(sql, i, r);
    if r.Word? {
      var d', e' := DollarWord(sql, i, r);
      DollarQuotedOnce(sql, i, d, e, d', e');
    }
  }

  lemma CutOffOf(sql: string, i: nat, p: Piece)
    requires i < |sql| && IsSpan(sql, i, p)
    ensures p.CutOff? ==> IsCutOff(sql, i, p.state)
  {
    hide IsWordSpan, IsSkipped, IsCutOff;
  }

  lemma DollarWord(sql: string, i: nat, p: Piece) returns (d: nat, e: nat)
    requires i < |sql| && sql[i] == '$' && IsSpan(sql, i, p) && p.Word?
    ensures IsDollarQuoted(sql, i, d, e) && i < d < e <= |sql|
    ensures p.next == e + d + 1 - i && p.text == "'" + sql[d + 1..e] + "'"
  {
    d, e :| IsDollarQuoted(sql, i, d, e) && p.next == e + d + 1 - i && p.text == "'" + sql[d + 1..e] + "'";
  }

  lemma NumberOnce(sql: string, i: nat, b: nat, b': nat)
    requires IsNumberSpan(sql, i, b) && IsNumberSpan(sql, i, b')
    ensures b == b'
  {
  }

  lemma PlainOnce(sql: string, i: nat, b: nat, b': nat)
    requires IsPlainSpan(sql, i, b) && IsPlainSpan(sql, i, b')
    ensures b == b'
  {
    hide IsNumberSpan, StandsAt;
    if IsNumberSpan(sql, i, b) && IsNumberSpan(sql, i, b') {
      NumberOnce(sql, i, b, b');
    }
  }

  /** A plain token does not go to the end of the text. */
  lemma PlainNotCutOff(sql: string, i: nat, b: nat, state: TokenizeState)
    requires IsPlainSpan(sql, i, b)
    ensures !IsCutOff(sql, i, state)
  {
    StandsTwo(sql, i, '-', '-');
    StandsTwo(sql, i, '/', '*');
    hide StandsAt;
  }

  lemma PlainSpans(sql: string, i: nat, p: Piece, r: Piece)
    requires StartsPlain(sql, i) && IsSpan(sql, i, p) && IsSpan(sql, i, r)
    ensures IsSame(p, r)
  {
    hide StandsAt, IsPlainSpan;
    if p.Word? && r.Word? {
      PlainOnce(sql, i, p.next, r.next);
    } else if p.Word? && r.CutOff? {
      PlainNotCutOff(sql, i, p.next, r.state);
    } else if r.Word? && p.CutOff? {
      PlainNotCutOff(sql, i, r.next, p.state);
    }
  }

  /** At most one span starts at a place. */
  lemma SpanOnce(sql: string, i: nat, p: Piece, r: Piece)
    requires i < |sql| && IsSpan(sql, i, p) && IsSpan(sql, i, r)
    ensures IsSame(p, r)
  {
    hide IsSpan, StandsAt;
    var c := sql[i];
    if c == '\'' || c == '"' {
      QuoteOnce(sql, i, p, r);
    } else if c == ';' || IsSpace(c) {
      SimpleOnce(sql, i, p, r);
    } else if c == '$' {
      DollarOnce(sql, i, p, r);
    } else if StandsAt(sql, i, "--") || StandsAt(sql, i, "/*") {
      CommentOnce(sql, i, p, r);
    } else {
      PlainSpans(sql, i, p, r);
    }
  }

  lemma SimpleOnce(sql: string, i: nat, p: Piece, r: Piece)
    requires i < |sql| && (sql[i] == ';' || IsSpace(sql[i])) && IsSpan(sql, i, p) && IsSpan(sql, i, r)
    ensures IsSame(p, r)
  {
    StandsTwo(sql, i, '-', '-');
    StandsTwo(sql, i, '/', '*');
    hide StandsAt;
  }

  /** What covers the text is what the lexer reads. */
  lemma {:induction false} CoversOnce(sql: string, i: nat, last: nat, events: seq<Event>, state: TokenizeState)
    requires last <= i <= |sql| && Covers(sql, i, events, state)
    ensures LexFrom(sql, i, last).events == events && LexFrom(sql, i, last).state == state
    decreases |sql| - i
  {
    hide IsSkipped, IsCutOff, IsWordSpan, Next;
    var p: Piece;
    if events == [] {
      var c: nat :| i <= c && IsGap(sql, i, c) && if state == STANDARD then c == |sql| else IsCutOff(sql, c, state);
      GapOrCutOff(sql, i, last, c, state);
    } else {
      GapOrEvent(sql, i, last, events, state);
    }
  }

  lemma CutOffInside(sql: string, c: nat, state: TokenizeState)
    requires IsCutOff(sql, c, state)
    ensures c < |sql| && state != STANDARD
  {
  }

  /** Behind the last event. */
  lemma {:induction false} GapOrCutOff(sql: string, i: nat, last: nat, c: nat, state: TokenizeState)
    requires last <= i <= |sql| && i <= c && IsGap(sql, i, c)
    requires if state == STANDARD then c == |sql| else IsCutOff(sql, c, state)
    ensures LexFrom(sql, i, last).events == [] && LexFrom(sql, i, last).state == state
    decreases |sql| - i
  {
    hide IsSkipped, IsCutOff, IsWordSpan, Next;
    if i < c {
      var m: nat :| i < m <= c && IsSkipped(sql, i, m) && IsGap(sql, m, c);
      SkippedInside(sql, i, m);
      NextIsSpan(sql, i, last);
      SpanOnce(sql, i, Nothing(m, 0), Next(sql, i, last));
      GapOrCutOff(sql, m, Next(sql, i, last).last, c, state);
    } else if state != STANDARD {
      CutOffInside(sql, i, state);
      NextIsSpan(sql, i, last);
      SpanOnce(sql, i, CutOff(state, 0), Next(sql, i, last));
    }
  }

  lemma SkippedInside(sql: string, i: nat, m: nat)
    requires IsSkipped(sql, i, m)
    ensures i < m <= |sql|
  {
  }

  lemma EventInside(sql: string, e: Event)
    requires IsEvent(sql, e)
    ensures StartOf(e) < EndOf(e) <= |sql|
  {
  }

  lemma {:induction false} GapOrEvent(sql: string, i: nat, last: nat, events: seq<Event>, state: TokenizeState)
    requires last <= i <= |sql| && events != [] && Covers(sql, i, events, state)
    ensures LexFrom(sql, i, last).events == events && LexFrom(sql, i, last).state == state
    decreases |sql| - i, |events|
  {
    hide IsSkipped, IsCutOff, IsWordSpan, Next;
    var e := events[0];
    EventInside(sql, e);
    NextIsSpan(sql, i, last);
    if i < StartOf(e) {
      var m: nat :| i < m <= StartOf(e) && IsSkipped(sql, i, m) && IsGap(sql, m, StartOf(e));
      SkippedInside(sql, i, m);
      SpanOnce(sql, i, Nothing(m, 0), Next(sql, i, last));
      GapOrEvent(sql, m, Next(sql, i, last).last, events, state);
    } else {
      var p := if e.Token? then Word(e.text, e.to) else Semicolon;
      SpanOnce(sql, i, p, Next(sql, i, last));
      CoversOnce(sql, EndOf(e), EndOf(e), events[1..], state);
      assert events == [e] + events[1..];
    }
  }

  /** The lexer reads just the one sequence of tokens and semicolons that covers the text. */
  lemma LexExactly(sql: string, events: seq<Event>, state: TokenizeState)
    ensures Covers(sql, 0, events, state) <==> events == Lex(sql).events && state == Lex(sql).state
  {
    hide Covers, LexFrom;
    LexCovers(sql, 0, 0);
    if Covers(sql, 0, events, state) {
      CoversOnce(sql, 0, 0, events, state);
    }
  }

  // ---------- the last word ----------

  predicate IsComment(state: TokenizeState) {
    state == SINGLE_LINE_COMMENT || state == MULTI_LINE_COMMENT
  }

  /** The last word starts at `last` when nothing is cut off and the lexer is at `i`. */
  ghost predicate IsFresh(sql: string, i: nat, last: nat) {
    last == i || (last + 1 == i && OpensNothing(sql, last))
  }

  lemma NextIsFresh(sql: string, i: nat, last: nat)
    requires last <= i < |sql| && IsFresh(sql, i, last)
    ensures var p := Next(sql, i, last);
      && (p.Nothing? ==> IsFresh(sql, p.next, p.last))
      && (p.CutOff? && !IsComment(p.state) ==> p.last == i)
  {
    NextIsSpan(sql, i, last);
    if sql[i] == '$' {
      DollarIsFresh(sql, i, last);
    }
  }

  lemma DollarIsFresh(sql: string, i: nat, last: nat)
    requires last <= i < |sql| && IsFresh(sql, i, last) && sql[i] == '$' && IsSpan(sql, i, Next(sql, i, last))
    ensures var p := Next(sql, i, last);
      && (p.Nothing? ==> IsFresh(sql, p.next, p.last))
      && (p.CutOff? ==> p.last == i)
  {
    DollarKinds(sql, i, Next(sql, i, last));
    assert Next(sql, i, last) == DollarPiece(sql, i, last);
    hide Next, IsSpan;
    assert last + 1 == i && sql[last] == '$' ==> IsOpening(sql, last, i);
  }

  /** The last word is what the end of the text cuts off; or, when that is nothing, it is empty, or a last dollar sign
      that opens nothing. */
  lemma {:induction false} LastWordStarts(sql: string, i: nat, last: nat)
    requires last <= i <= |sql| && IsFresh(sql, i, last)
    ensures var r := LexFrom(sql, i, last);
      if r.state == STANDARD then IsFresh(sql, |sql|, r.last)
      else IsComment(r.state) || IsCutOff(sql, r.last, r.state)
    decreases |sql| - i
  {
    hide Next, IsCutOff, OpensNothing, IsWordSpan, IsSkipped;
    if i < |sql| {
      NextIsSpan(sql, i, last);
      NextIsFresh(sql, i, last);
      match Next(sql, i, last)
      case Nothing(next, l) => LastWordStarts(sql, next, l);
      case Word(_, next) => LastWordStarts(sql, next, next);
      case Semicolon => LastWordStarts(sql, i + 1, i + 1);
      case CutOff(_, _) =>
    }
  }
}
