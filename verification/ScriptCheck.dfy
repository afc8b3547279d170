/** The whole check of a script: Unicode spaces are replaced, the text is cut into statements of tokens, and every
    statement must belong to the grammar. */
module ScriptCheck {
  import Lexing
  import Tokenizer
  import UnicodeSpaces
  import opened MatcherGraph
  import opened Derivations
  import opened RuleReading
  import opened GrammarMeaning
  import opened PegCheck
  import opened RootMatcher

  /** The text that is tokenized. */
  ghost function Cleaned(sql: string): string {
    UnicodeSpaces.SpacesAreSpans(sql, 0);
    if UnicodeSpaces.Spaces(sql, 0) == [] then sql else UnicodeSpaces.Rebuilt(sql, 0, UnicodeSpaces.Spaces(sql, 0))
  }

  /** The text ends inside a comment. */
  ghost predicate EndsInComment(sql: string) {
    Lexing.Lex(Cleaned(sql)).state in {Lexing.SINGLE_LINE_COMMENT, Lexing.MULTI_LINE_COMMENT}
  }

  /** The statements of a script; the last one needs no semicolon, and its last word is a token too. */
  ghost function Statements(sql: string): seq<seq<string>> {
    var text := Cleaned(sql);
    var script := Tokenizer.Collect(Lexing.Lex(text).events);
    var last := Tokenizer.LastWord(text);
    script.statements + [if last == "" then script.tokens else script.tokens + [last]]
  }

  /** The matcher derives what the start rule of the grammar derives. */
  ghost predicate IsMatcherOf(g: Source, accepts: (LeafKind, string) -> bool, nodes: Graph, id: Id, root: string)
    requires g.Valid()
  {
    forall tokens, t :: Derives(Input(nodes, accepts, tokens), id, t) <==> Means(g, accepts, Ref(root), t)
  }

  method Clean(sql: string) returns (text: string)
    ensures text == Cleaned(sql)
  {
    var found, clean := UnicodeSpaces.StripUnicodeSpaces(sql);
    text := if found then clean else sql;
  }

  /** Checks a script with the matcher of a grammar. A script that ends in a comment is not looked at. Of any other,
      all statements must pass, and then all that are not empty are statements of the grammar. */
  method CheckScript(sql: string, accepts: (LeafKind, string) -> bool, nodes: Graph, id: Id, ghost g: Source,
                     ghost root: string)
    returns (v: Verdict)
    requires g.Valid() && Closed(nodes) && id < |nodes| && IsMatcherOf(g, accepts, nodes, id, root)
    requires EndsInComment(sql) || ChecksEnd(nodes, accepts, id, Statements(sql))
    ensures v.Accepted? <==> EndsInComment(sql) || AllPass(nodes, accepts, id, Statements(sql))
    ensures v.Accepted? && !EndsInComment(sql) ==>
      forall k :: 0 <= k < |Statements(sql)| && Statements(sql)[k] != [] ==>
        InLanguage(g, accepts, root, Statements(sql)[k])
  {
    hide Passes, InLanguage, Closed, ChecksEnd, IsMatcherOf;
    var text := Clean(sql);
    var tokenizer := new Tokenizer.ParserTokenizer(text);
    var ok := tokenizer.TokenizeInput();
    if !ok {
      return Accepted;
    }
    var statements := tokenizer.statements + [tokenizer.tokens];
    assert statements == Statements(sql);
    v := CheckStatements(nodes, accepts, id, statements);
    if v.Accepted? {
      forall k | 0 <= k < |statements| && statements[k] != [] ensures InLanguage(g, accepts, root, statements[k]) {
        PassesInLanguage(g, accepts, nodes, id, root, statements[k]);
      }
    }
  }

  lemma PassesInLanguage(g: Source, accepts: (LeafKind, string) -> bool, nodes: Graph, id: Id, root: string,
                         tokens: seq<string>)
    requires g.Valid() && tokens != [] && Passes(nodes, accepts, id, tokens)
    requires IsMatcherOf(g, accepts, nodes, id, root)
    ensures InLanguage(g, accepts, root, tokens)
  {
    hide Passes, InLanguage;
    PassingIsInLanguage(g, accepts, nodes, id, root, tokens);
  }

  /** Nothing is checked when the text ends in a comment, whatever comes before it. */
  lemma CommentHides()
    ensures EndsInComment("x--")
  {
    var q := "x--";
    assert UnicodeSpaces.Spaces(q, 0) == [];
    assert Lexing.RunEnd(q, 1, Lexing.IsKeyword) == 1;
    assert Lexing.Next(q, 0, 0) == Lexing.Word("x", 1);
    assert Lexing.RunEnd(q, 3, Lexing.IsNotNewline) == 3;
    assert Lexing.Next(q, 1, 1) == Lexing.CutOff(Lexing.SINGLE_LINE_COMMENT, 1);
  }
}
