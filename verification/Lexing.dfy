/** Reading SQL text token by token: at each place, which token starts there and how far it reaches.
    Text is a sequence of bytes, written as characters. */
module Lexing {
  import opened Characters

  // ---------- characters ----------

  predicate IsPunctuation(c: char) {
    c != '_' && ('!' <= c <= '/' || ':' <= c <= '@' || '[' <= c <= '`' || '{' <= c <= '~')
  }

  predicate IsSingleByteOperator(c: char) {
    c in ['(', ')', '{', '}', '[', ']', ',', '?', '$', '+', '-', '#']
  }

  predicate IsDigit(c: char) {
    '0' <= c <= '9'
  }

  predicate IsInitialNumber(c: char) {
    IsDigit(c) || c == '.'
  }

  predicate IsNumber(c: char) {
    IsInitialNumber(c) || c in ['e', 'E', '-', '+', '_']
  }

  predicate IsControlFlow(c: char) {
    c in ['\'', '-', ';', '"', '.']
  }

  predicate IsKeyword(c: char) {
    !IsSingleByteOperator(c) && !IsPunctuation(c) && !IsSpace(c) && !IsControlFlow(c)
  }

  predicate IsOperator(c: char) {
    !IsSingleByteOperator(c) && !IsControlFlow(c) && IsPunctuation(c)
  }

  predicate IsNotNewline(c: char) {
    !IsNewline(c)
  }

  predicate IsNotDollar(c: char) {
    c != '$'
  }

  predicate IsDollarTag(c: char) {
    'A' <= c <= 'Z' || 'a' <= c <= 'z' || '\U{80}' <= c <= '\U{FF}'
  }

  /** The length of the multi-byte operator at `i`, or 0. */
  function SpecialOperator(sql: string, i: nat): (n: nat)
    requires i < |sql|
    ensures n == 0 || (n >= 2 && i + n <= |sql|)
  {
    if i + 2 < |sql| && sql[i..i + 3] == "->>" then 3
    else if i + 1 < |sql| && sql[i..i + 2] in ["::", ":=", "->", "**", "//"] then 2
    else 0
  }

  // ---------- scanning ----------

  /** The first position from `i` on where `p` fails. */
  function RunEnd(sql: string, i: nat, p: char -> bool): (e: nat)
    requires i <= |sql|
    ensures i <= e <= |sql| && (e < |sql| ==> !p(sql[e])) && forall k :: i <= k < e ==> p(sql[k])
    decreases |sql| - i
  {
    if i < |sql| && p(sql[i]) then RunEnd(sql, i + 1, p) else i
  }

  /** The closing quote, with doubled quotes skipped, or the end of the text. */
  function QuoteEnd(sql: string, i: nat, q: char): (e: nat)
    requires i <= |sql|
    ensures i <= e <= |sql| && (e < |sql| ==> sql[e] == q)
    decreases |sql| - i
  {
    if i == |sql| then i
    else if sql[i] != q then QuoteEnd(sql, i + 1, q)
    else if i + 1 < |sql| && sql[i + 1] == q then QuoteEnd(sql, i + 2, q)
    else i
  }

  predicate ClosesComment(sql: string, i: nat)
    requires i < |sql|
  {
    sql[i] == '*' && i + 1 < |sql| && sql[i + 1] == '/'
  }

  /** The closing mark, or the end of the text. */
  function CommentEnd(sql: string, i: nat): (e: nat)
    requires i <= |sql|
    ensures i <= e <= |sql| && (e < |sql| ==> ClosesComment(sql, e))
    ensures forall k :: i <= k < e ==> !ClosesComment(sql, k)
    decreases |sql| - i
  {
    if i == |sql| || ClosesComment(sql, i) then i else CommentEnd(sql, i + 1)
  }

  /** Where the number read up to `e` must end: right behind a digit or a dot. */
  function NumberEnd(sql: string, lo: nat, e: nat): (b: nat)
    requires lo < e <= |sql| && IsInitialNumber(sql[lo])
    ensures lo < b <= e && IsInitialNumber(sql[b - 1]) && forall k :: b <= k < e ==> !IsInitialNumber(sql[k])
  {
    if IsInitialNumber(sql[e - 1]) then e else NumberEnd(sql, lo, e - 1)
  }

  /** The closing marker of a dollar-quoted string stands at `i`. */
  predicate ClosesDollar(sql: string, i: nat, marker: string)
    requires i < |sql|
  {
    sql[i] == '$' && i + 1 < |sql| &&
    var e := RunEnd(sql, i + 1, IsNotDollar);
    e < |sql| && sql[i + 1..e] == marker
  }

  function DollarEnd(sql: string, i: nat, marker: string): (e: nat)
    requires i <= |sql|
    ensures i <= e <= |sql| && (e < |sql| ==> ClosesDollar(sql, e, marker))
    ensures forall k :: i <= k < e ==> !ClosesDollar(sql, k, marker)
    decreases |sql| - i
  {
    if i == |sql| || ClosesDollar(sql, i, marker) then i else DollarEnd(sql, i + 1, marker)
  }

  // ---------- tokens ----------

  datatype TokenizeState =
    | STANDARD
    | SINGLE_LINE_COMMENT
    | MULTI_LINE_COMMENT
    | QUOTED_IDENTIFIER
    | STRING_LITERAL
    | KEYWORD
    | NUMERIC
    | OPERATOR
    | DOLLAR_QUOTED_STRING

  /** What starts at a place: text that yields no token, where `last` is the new start of the last word;
      a token; the end of a statement; or a token that the end of the text cuts off. */
  datatype Piece =
    | Nothing(next: nat, last: nat)
    | Word(text: string, next: nat)
    | Semicolon
    | CutOff(state: TokenizeState, last: nat)

  /** A piece that starts at `i` ends behind `i` and within the text. */
  ghost predicate Advances(sql: string, i: nat, p: Piece) {
    match p
    case Nothing(next, last) => i < next <= |sql| && last <= next
    case Word(_, next) => i < next <= |sql|
    case Semicolon => true
    case CutOff(state, last) => state != STANDARD && last <= i
  }

  function DollarPiece(sql: string, i: nat, last: nat): (p: Piece)
    requires i < |sql| && sql[i] == '$' && last <= i
    ensures Advances(sql, i, p)
  {
    if i + 1 == |sql| || IsDigit(sql[i + 1]) then Nothing(i + 1, last)
    else
      var d := RunEnd(sql, i + 1, IsDollarTag);
      if d == |sql| || sql[d] != '$' then Nothing(i + 1, i)
      else
        var marker := sql[i + 1..d];
        var e := DollarEnd(sql, d + 1, marker);
        assert e < |sql| ==> RunEnd(sql, e + 1, IsNotDollar) == e + 1 + |marker|;
        if e == |sql| then CutOff(DOLLAR_QUOTED_STRING, i)
        else Word("'" + sql[d + 1..e] + "'", e + |marker| + 2)
  }

  function NumberPiece(sql: string, i: nat): (p: Piece)
    requires i < |sql| && IsInitialNumber(sql[i])
    ensures Advances(sql, i, p)
  {
    var e := RunEnd(sql, i + 1, IsNumber);
    if e == |sql| then CutOff(NUMERIC, i)
    else
      var b := NumberEnd(sql, i, e);
      Word(sql[i..b], b)
  }

  function QuotePiece(sql: string, i: nat, state: TokenizeState): (p: Piece)
    requires i < |sql| && state != STANDARD
    ensures Advances(sql, i, p)
  {
    var e := QuoteEnd(sql, i + 1, sql[i]);
    if e == |sql| then CutOff(state, i) else Word(sql[i..e + 1], e + 1)
  }

  function RunPiece(sql: string, i: nat, p: char -> bool, state: TokenizeState): (r: Piece)
    requires i < |sql| && state != STANDARD
    ensures Advances(sql, i, r)
  {
    var e := RunEnd(sql, i + 1, p);
    if e == |sql| then CutOff(state, i) else Word(sql[i..e], e)
  }

  /** What starts at `i`, when the last word so far starts at `last`. */
  function Next(sql: string, i: nat, last: nat): (p: Piece)
    requires i < |sql| && last <= i
    ensures Advances(sql, i, p)
  {
    var c := sql[i];
    if c == '\'' then QuotePiece(sql, i, STRING_LITERAL)
    else if c == '"' then QuotePiece(sql, i, QUOTED_IDENTIFIER)
    else if c == ';' then Semicolon
    else if c == '$' then DollarPiece(sql, i, last)
    else if c == '-' && i + 1 < |sql| && sql[i + 1] == '-' then
      var e := RunEnd(sql, i + 2, IsNotNewline);
      if e == |sql| then CutOff(SINGLE_LINE_COMMENT, last) else Nothing(e + 1, e + 1)
    else if c == '/' && i + 1 < |sql| && sql[i + 1] == '*' then
      var e := CommentEnd(sql, i + 2);
      if e == |sql| then CutOff(MULTI_LINE_COMMENT, last) else Nothing(e + 2, e + 2)
    else if IsSpace(c) then Nothing(i + 1, i + 1)
    else if SpecialOperator(sql, i) > 0 then Word(sql[i..i + SpecialOperator(sql, i)], i + SpecialOperator(sql, i))
    else if IsSingleByteOperator(c) then Word([c], i + 1)
    else if IsInitialNumber(c) then NumberPiece(sql, i)
    else if IsPunctuation(c) then RunPiece(sql, i, IsOperator, OPERATOR)
    else RunPiece(sql, i, IsKeyword, KEYWORD)
  }

  /** A token with the place it was read from, or the end of a statement. */
  datatype Event = Token(text: string, from: nat, to: nat) | StatementEnd(pos: nat)

  /** All events, and the state and start of the last word where the text ends. */
  datatype Lexed = Lexed(events: seq<Event>, state: TokenizeState, last: nat) {
    function After(earlier: seq<Event>): Lexed {
      this.(events := earlier + events)
    }
  }

  function LexFrom(sql: string, i: nat, last: nat): Lexed
    requires last <= i <= |sql|
    decreases |sql| - i
  {
    if i == |sql| then Lexed([], STANDARD, last)
    else
      match Next(sql, i, last)
      case Nothing(next, l) => LexFrom(sql, next, l)
      case Word(text, next) => LexFrom(sql, next, next).After([Token(text, i, next)])
      case Semicolon => LexFrom(sql, i + 1, i + 1).After([StatementEnd(i)])
      case CutOff(state, l) => Lexed([], state, l)
  }

  function Lex(sql: string): Lexed {
    LexFrom(sql, 0, 0)
  }
}
