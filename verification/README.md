# Verified models of the autocomplete grammar engine, list lambdas, time buckets and statistics assigners

The project models the parts of the repository whose correctness needs an argument, and proves what they promise.
`dafny verify dfyconfig.toml` checks all of it.

- **The grammar engine of the autocomplete extension** (`duckdb/extension/autocomplete/matcher.cpp`). Grammar text is
  parsed into rules (`Grammar`, `PegParser`), rules are compiled with an explicit stack into a cyclic graph of matchers
  (`RuleReading`, `RuleStack`, `RuleMachine`, `RuleBuild`, `RuleSteps`, `MatcherFactory`), and the graph is run over
  tokens (`Matcher`, `MatchRun`). Each has accounts of its own to be measured by:
  - grammar text by everything it can be laid out as (`GrammarLayout`), what is stored (`GrammarSoundness`) and what is
    wrong where it is rejected (`GrammarErrors`), with single tokens in `GrammarRoundTrip`;
  - rules by the terms they are written from (`RuleTerms`) and by what they derive (`GrammarMeaning`);
  - matching by proofs of success and of refusal (`MatchProofs`), by parse trees (`Matching`, `MatchSoundness`) and by
    when it ends (`MatchTermination`, `MatchEnds`, `Acyclic`), and proposals by what a visit has to meet (`Suggestions`).

  The way from grammar text to accepted statements is in `RootMatcher`, `PegCheck` and `ScriptCheck`.
- **The SQL tokenizer** (`tokenizer.cpp`): the state machine with its backward steps (`Tokenizer`) does what a lexer
  that reads token by token does (`Lexing`), and this covers every text, without a gap, by spans that are described one
  by one (`TokenSpans`). Order, statements and stability under reprinting are in `TokenizerProperties`.
- **Unicode spaces** (`autocomplete_extension.cpp`): the `goto` loops and the rebuilt query (`UnicodeSpaces`), and for
  which texts the scan and a reading of quotes and comments of its own agree on what is plain (`PlainText`).
- **Lambdas over lists** (`lambda_functions.cpp`): `list_transform` and `list_filter` in batches are the row-by-row
  functions, for every batch size (`LambdaLists`).
- **The statistics assigners** (`assigners/`): the dynamic program is optimal as long as the optimum fits into 32 bits
  (`Dp`); lazy greedy conserves budget and ends (`GreedyState`, `Greedy`), it never frees budget or divides by zero
  exactly if every option that prunes is larger than its partition's empty statistic, and on every table it is locally
  maximal unless it freed budget (`GreedySafety`); where empty statistics are free, it does what an eager program does
  that always takes the best ratio (`EagerGreedy`); simple greedy makes the lexicographically greatest selection
  (`GreedySimple`); and neither prunes more than the dynamic program (`Dominance`). `Outliers` is the scattering of rows
  in `generate_outliers.py`.
- **Microsecond buckets** (`duckdb/extension/icu/`): adding microseconds through a calendar of milliseconds is exact,
  and buckets are floors (`TimeBucket`).

Code that changes state is modelled by methods and classes that change state. Each is proved against a function of its
inputs or of the old state, and the laws are lemmas about these functions: the main ones say exactly when the function
has its value, by a predicate that shares no definition with it.

Where code and comments disagree, the model follows the code: `!` in a rule is skipped although it is written as "not"
(`duckdb/extension/autocomplete/matcher.cpp:1134-1138`); a dollar sign that opens no dollar-quoted string yields no
token, and is in the last word only where it is the last byte of the text
(`duckdb/extension/autocomplete/tokenizer.cpp:178-203`, `TokenizerProperties.DollarIsLastWord`); a script that ends in a
comment is not checked at all (`duckdb/extension/autocomplete/autocomplete_extension.cpp:647-649`); and when a match
fails, the token named in the message is the first one, wherever the fault is, or one past the last, which is not there
(`PegCheck.FailedIndex`).

## Model

| member | source | states |
|---|---|---|
| MatchSoundness.AcceptanceIsSound | duckdb/extension/autocomplete/matcher.cpp:93-267 | On any matcher graph, cyclic or not, a run that succeeds on all tokens means that a parse tree from the root has just these tokens as its leaves. |
| MatchSoundness.MatchDerives | duckdb/extension/autocomplete/matcher.cpp:93-267 | A successful match from token i to token j has read a sequence that its matcher derives; holds for leaves, lists, optionals, choices and repeats. |
| MatchSoundness.OptionalIsNullable | duckdb/extension/autocomplete/matcher.cpp:125-135 | A matcher that AddSuggestion reports as optional derives the empty sequence, even where the set of visited matchers cut the visit short. |
| MatchSoundness.SuggestExpects | duckdb/extension/autocomplete/matcher.cpp:22-29 | Every keyword or name proposed by AddSuggestion can be the first leaf of some derivation of the matcher. |
| MatchSoundness.MatchExpects | duckdb/extension/autocomplete/matcher.cpp:93-123 | Every leaf proposed during a match can follow, in a partial parse tree, all the tokens from where the match began. |
| MatchSoundness.CompletionIsSound | duckdb/extension/autocomplete/matcher.cpp:93-267 | If every matcher derives something, each proposal filled in with a token its leaf accepts extends the tokens to a prefix of a derivable statement. |
| Derivations.Complete | duckdb/extension/autocomplete/matcher.cpp:93-267 | A partial parse tree can be completed to a whole one that goes on with any token the expected leaf accepts. |
| MatchTermination.Terminates | duckdb/extension/autocomplete/matcher.cpp:93-267 | With a rank that goes down along every reference followed before a token is read, matching ends, by the tokens left and then the rank; success without progress happens only to nullable matchers. |
| MatchTermination.MoreFuel | duckdb/extension/autocomplete/matcher.cpp:93-267 | Outcomes of matching do not depend on the bound on the depth that computed them. |
| MatchTermination.OptionalIsInNullable | duckdb/extension/autocomplete/matcher.cpp:125-135 | Matchers reported as optional are nullable in the sense of the termination argument. |
| MatchEnds.EndsExactly | duckdb/extension/autocomplete/matcher.cpp:93-267 | Where only the last alternative of a choice can be empty: every run on the graph, for all tokens and all leaves, is finite if and only if no matcher can get to itself before a token is read and no repeated matcher can succeed without one. |
| MatchEnds.ProgressiveExactly | duckdb/extension/autocomplete/matcher.cpp:93-267 | The rank that termination needs exists exactly if there is no left recursion and no repeated matcher is nullable. |
| MatchEnds.RepeatGoesOn | duckdb/extension/autocomplete/matcher.cpp:249-266 | A repeat of a matcher that succeeds without reading a token never ends, at no depth. |
| MatchEnds.ShadowedEnds | duckdb/extension/autocomplete/matcher.cpp:195-206 | A concrete graph with left recursion on which matching ends for all tokens, as an alternative that always succeeds comes first. |
| MatchRun.Run | duckdb/extension/autocomplete/matcher.cpp:93-267 | The position never goes back and never passes the end; a failed match leaves it where it was or at the end. Which outcome it is, is said by MatchProofs.RunsExactly. |
| MatchProofs.RunsExactly | duckdb/extension/autocomplete/matcher.cpp:93-267 | On every graph, some depth gives an outcome, with its position, visited set and proposals, if and only if there is a proof of it: a tree in which an optional is skipped only over a refusal of its body, an alternative is taken only over refusals of all before it, a repeat stops only over a refusal or at the end of the tokens, and a list is refused at its first refused element, or at the end if the rest must be matched; what has not been asked at the end of the tokens is proposed, behind all that the steps propose. |
| MatchProofs.RunProves | duckdb/extension/autocomplete/matcher.cpp:93-267 | From every run that ends such a proof is built, for the same position, visited set and proposals. |
| MatchProofs.ProofRuns | duckdb/extension/autocomplete/matcher.cpp:93-267 | Every such proof is followed by a run of some depth, to the same outcome. |
| MatchRun.SuggestEach | duckdb/extension/autocomplete/matcher.cpp:208-213 | A choice is always mandatory, and the set of visited matchers only grows. That every alternative is visited is said by Suggestions.VisitsAll. |
| Suggestions.VisitsAll | duckdb/extension/autocomplete/matcher.cpp:22-29 | A visit leaves nothing out, on every graph and whatever was visited before: of each matcher newly visited, a leaf that proposes is proposed, the body of an optional or repeat and every alternative of a choice has been visited, and the elements of a list have been, in order, up to the first that was mandatory then. |
| Suggestions.SuggestsAll | duckdb/extension/autocomplete/matcher.cpp:125-213 | Where no matcher is met twice, the proposals are exactly the leaves that the visit meets, in order, and whether it is mandatory and what is visited is known too. |
| Suggestions.ProposedExactly | duckdb/extension/autocomplete/matcher.cpp:22-29 | There, a leaf is proposed if and only if it can be the first leaf of some derivation in which only optionals, and lists of them, are passed over. |
| Matcher.AddSuggestion | duckdb/extension/autocomplete/matcher.cpp:22-29 | The method on shared state ends on every graph, as the visited set grows within it, and leaves the proposals and visited set that Suggestions.VisitsAll and ProposedExactly are about. |
| Matcher.AddListSuggestions | duckdb/extension/autocomplete/matcher.cpp:125-135 | Children are visited up to the first mandatory one; all optional makes the list optional. |
| Matcher.AddChoiceSuggestions | duckdb/extension/autocomplete/matcher.cpp:208-213 | All alternatives are visited: proposals and visited set are those that Suggestions.VisitsAll is about. |
| Matcher.Match | duckdb/extension/autocomplete/matcher.cpp:55-267 | The method on match states leaves, for every kind of matcher, the success, position, visited set and proposals of the run that MatchProofs.RunsExactly characterises. |
| Matcher.MatchList | duckdb/extension/autocomplete/matcher.cpp:93-123 | The loop over children, the suggestions when the tokens run out, and the position then left behind are those of the specification. |
| Matcher.MatchOptional | duckdb/extension/autocomplete/matcher.cpp:160-170 | An optional always succeeds and moves only if its body matched. |
| Matcher.MatchChoice | duckdb/extension/autocomplete/matcher.cpp:195-206 | The first alternative that matches decides; proposals of failed alternatives stay. |
| Matcher.MatchRepeat | duckdb/extension/autocomplete/matcher.cpp:238-267 | One match is needed, further ones are taken while there are tokens. |
| Matcher.MatchAgain | duckdb/extension/autocomplete/matcher.cpp:249-266 | One turn of the repeat loop: it suggests at the end of the tokens, or matches once more, or stops. |
| Matcher.MatchState.Copy | duckdb/extension/autocomplete/matcher.cpp:94 | A copied match state shares tokens and suggestions, keeps the position and has visited nothing. |
| PegCheck.CheckStatements | duckdb/extension/autocomplete/autocomplete_extension.cpp:652-677 | Provided only that matching ends on each statement looked at: a script is accepted exactly if every non-empty statement is matched to its last token; all accepted statements are derivable; a rejection names the first failing statement and the position its match got to. |
| PegCheck.FailedIndex | duckdb/extension/autocomplete/matcher.cpp:93-123 | A failed match stands at the first token, except just when the root is a list whose first elements match all tokens and whose rest is still required: then behind the last one. |
| PegCheck.FailsBehindLast | duckdb/extension/autocomplete/autocomplete_extension.cpp:652-675 | A concrete statement that ends too early and is reported at the token behind its last. |
| PegCheck.ProgressiveChecksEnd | duckdb/extension/autocomplete/autocomplete_extension.cpp:652-662 | On a graph with such a rank, matching ends on every statement of every script. |
| PegCheck.PassingIsDerivable | duckdb/extension/autocomplete/autocomplete_extension.cpp:661-662 | A statement that passes is derivable from the root matcher. |
| PegCheck.PassesExactly | duckdb/extension/autocomplete/autocomplete_extension.cpp:661-662 | A statement that is not empty passes if and only if there is a proof, in the sense of MatchProofs, that the root matcher matches all of its tokens. |
| PegCheck.OneOutcome | duckdb/extension/autocomplete/matcher.cpp:93-267 | The outcome of matching is unique. |
| ScriptCheck.CheckScript | duckdb/extension/autocomplete/autocomplete_extension.cpp:631-679 | From SQL text: spaces replaced, text tokenized, every statement checked; accepted exactly if the text ends in a comment or all statements pass, and then every non-empty statement belongs to the language of the grammar. |
| ScriptCheck.CommentHides | duckdb/extension/autocomplete/autocomplete_extension.cpp:646-649 | A concrete script that is accepted unchecked because it ends in a comment. |
| ScriptCheck.Clean | duckdb/extension/autocomplete/autocomplete_extension.cpp:642-643 | The tokenized text is the rebuilt query if there were Unicode spaces, and the query itself otherwise. |
| GrammarLayout.ParseLayout | duckdb/extension/autocomplete/matcher.cpp:743-927 | However rules are laid out, parsing gives these rules, or the duplicate-name error if a name comes twice: literals with or without the mark, tokens without a blank or with blanks, tabs and comments between them, line breaks where a rule cannot end, blank and comment lines between rules, and with or without a line break or a comment at the end. The last rule may have open brackets or a trailing alternative. |
| GrammarLayout.ParsePrint | duckdb/extension/autocomplete/matcher.cpp:743-927 | In particular, printing any list of distinct complete rules (one per line, at most one parameter) and parsing the text gives exactly these rules. |
| GrammarLayout.PlacedParsed | duckdb/extension/autocomplete/matcher.cpp:823-910 | A token behind a gap is read as that token, up to its last character and no further: a literal with or without the mark, and whatever stands behind it without running into it. |
| GrammarLayout.GapParsed | duckdb/extension/autocomplete/matcher.cpp:750-775 | Blanks, comments and, where no rule can end, line breaks change nothing but the position. |
| GrammarLayout.HeaderThen | duckdb/extension/autocomplete/matcher.cpp:776-822 | Rule name, optional parameter and arrow are read, with gaps anywhere between them. |
| GrammarLayout.LineEndThen | duckdb/extension/autocomplete/matcher.cpp:759-769 | Blanks, a comment and a line break behind a rule with balanced brackets that does not end in an open alternative store it. |
| GrammarLayout.OpenEndThen | duckdb/extension/autocomplete/matcher.cpp:918-926 | At the end of the text what is left are blanks and comments, and the last rule is stored. |
| GrammarErrors.RejectsExactly | duckdb/extension/autocomplete/matcher.cpp:750-910 | A turn of the parser gives an error, with its position or name, if and only if what stands there is wrong in that way: a listing of the ten errors in terms of the text, apart from the parser. |
| GrammarErrors.FinishExactly | duckdb/extension/autocomplete/matcher.cpp:918-926 | At the end of the text there is an error exactly if a rule has no definition, an empty one, or a name that is stored. |
| GrammarSoundness.ParseSound | duckdb/extension/autocomplete/matcher.cpp:743-927 | Whatever text is accepted, only proper rules are stored: proper names, at most one parameter, proper tokens, no bracket closed that was not open; all but the last rule have balanced brackets and do not end in an open alternative. |
| GrammarSoundness.PrintParsed | duckdb/extension/autocomplete/matcher.cpp:743-927 | Any accepted grammar whose last rule is complete can be printed so that parsing gives the same rules again. |
| GrammarSoundness.TokenStepSound | duckdb/extension/autocomplete/matcher.cpp:823-910 | Every token the parser takes is well formed and is the text it was read from. |
| PegParser.PegParser.ParseRules | duckdb/extension/autocomplete/matcher.cpp:743-927 | The character loop with its state, bracket counter and pending rule stores the rules, or reports the first error, of the parser that GrammarLayout.ParseLayout and GrammarErrors.RejectsExactly are about. |
| PegParser.ParseToken | duckdb/extension/autocomplete/matcher.cpp:828-909 | One token of a definition: literal with escapes and optional case marker, reference or call, regular expression, operator with bracket count. Where each ends is said by GrammarLayout.PlacedParsed. |
| PegParser.ParseParameter | duckdb/extension/autocomplete/matcher.cpp:795-813 | The parameter of a rule, with its three errors. |
| PegParser.SkipLiteral | duckdb/extension/autocomplete/matcher.cpp:833-839 | Where a literal ends when backslashes escape; an escape at the end of the text runs past the terminator. |
| PegParser.SkipRegex | duckdb/extension/autocomplete/matcher.cpp:874-882 | Where a regular expression ends when backslashes escape. |
| MatcherFactory.MatcherFactory.CreateMatcher | duckdb/extension/autocomplete/matcher.cpp:1019-1157 | The compiler with its cache and stack succeeds exactly for rules that can be built, and then the matcher, and every rule built on the way, stands for the rule as the recursive reading has it; functions stand for their body with the argument filled in. Of rules that the rule does not mention, directly or through others, nothing is asked. |
| MatcherFactory.MatcherFactory.FillMatcher | duckdb/extension/autocomplete/matcher.cpp:1052-1154 | The token loop keeps: what is on the stack and what is left of the tokens read together as the whole rule; at the end one entry is left, or a bracket is open. |
| MatcherFactory.MatcherFactory.CallFunction | duckdb/extension/autocomplete/matcher.cpp:994-1010 | A call compiles the function with its argument, wrapped in a list unless it is a single item. |
| MatcherFactory.MatcherFactory.CallParameter | duckdb/extension/autocomplete/matcher.cpp:994-1004 | The items collected for a call become one matcher that stands for the argument: the only item itself, or a list of them. |
| MatcherFactory.MatcherList.AddMatcher | duckdb/extension/autocomplete/matcher.cpp:949-968 | A matcher is added to the topmost list, or completes the topmost choice, which leaves the stack. |
| MatcherFactory.MatcherList.Quantify | duckdb/extension/autocomplete/matcher.cpp:1080-1100 | '?' and '*' replace the last item of the topmost list by an optional or by an optional repeat; errors if there is none. |
| MatcherFactory.MatcherList.Or | duckdb/extension/autocomplete/matcher.cpp:1101-1123 | '/' replaces the last item by a choice that waits on the stack for its alternative. |
| MatcherFactory.MatcherList.Begin | duckdb/extension/autocomplete/matcher.cpp:978-981 | An open bracket or call puts a new list on the stack. |
| MatcherFactory.MatcherFactory.AddRuleOverride | duckdb/extension/autocomplete/matcher.cpp:1164-1166 | A built-in name is bound unless it is bound already. |
| RuleReading.ResumeOpen | duckdb/extension/autocomplete/matcher.cpp:1124-1129 | Reading on with one more open bracket is reading the bracket as an item. |
| RuleReading.ResumeClose | duckdb/extension/autocomplete/matcher.cpp:982-1011 | Closing a bracket adds the group, or the applied function, to the items around it, and fails without an open bracket or after an unfinished alternative. |
| RuleReading.ResumeTop | duckdb/extension/autocomplete/matcher.cpp:1052-1151 | Other tokens change only the items of the innermost bracket. |
| RuleTerms.RuleRead | duckdb/extension/autocomplete/matcher.cpp:1052-1151 | A rule written from terms (words, terms with '?' or '*', alternatives, brackets and calls) is read as what these terms say: every '?' an optional of what stands before it, every '*' an optional repeat, every '/' a choice of the item before it and the primary behind it, however they are nested. |
| RuleTerms.TermRead | duckdb/extension/autocomplete/matcher.cpp:1052-1151 | One term, wherever it stands, is read as one more item, or as the missing alternative of the last one. |
| RuleSteps.PrimaryStep | duckdb/extension/autocomplete/matcher.cpp:1055-1070 | After a literal or a reference the stack still reads as the rest of the rule requires. |
| RuleSteps.QuantifierStep | duckdb/extension/autocomplete/matcher.cpp:1080-1100 | After '?' or '*' the whole last item is wrapped, alternatives and all. |
| RuleSteps.OrStep | duckdb/extension/autocomplete/matcher.cpp:1101-1123 | After '/' the last item and the next primary become one choice: alternatives bind to the last item only. |
| RuleSteps.OpenStep | duckdb/extension/autocomplete/matcher.cpp:1124-1129 | After an open bracket or a call. |
| RuleSteps.CloseStep | duckdb/extension/autocomplete/matcher.cpp:1130-1133 | After a closed bracket, also of a call. |
| RuleSteps.NotStep | duckdb/extension/autocomplete/matcher.cpp:1134-1139 | '!' changes nothing. |
| RuleSteps.EndStep | duckdb/extension/autocomplete/matcher.cpp:1152-1156 | With all tokens read, the stack has depth one exactly if the rule can be read, and then its list is the rule. |
| RuleSteps.FinishRule | duckdb/extension/autocomplete/matcher.cpp:1152-1156 | A finished rule leaves the cache and all matchers of other rules in order. |
| RuleSteps.GrowStep | duckdb/extension/autocomplete/matcher.cpp:1067 | Building other rules in the middle of a rule does not disturb it. |
| RuleMachine.AddToChoiceSim | duckdb/extension/autocomplete/matcher.cpp:957-964 | Adding to a waiting choice makes the alternative of the reading. |
| RuleMachine.ChoiceSim | duckdb/extension/autocomplete/matcher.cpp:1101-1123 | The new choice on the stack is the last item of the reading, waiting for its alternative. |
| RuleMachine.CloseSim | duckdb/extension/autocomplete/matcher.cpp:987-993 | A popped bracket stands for the group of its items. |
| GrammarMeaning.GraphMeans | duckdb/extension/autocomplete/matcher.cpp:944-1157 | The built graph derives exactly the parse trees that the rules derive: alternatives, options, repetitions, references through the cache and substituted functions. |
| GrammarMeaning.BodyPlain | duckdb/extension/autocomplete/matcher.cpp:1059-1070 | The reading of a rule without a parameter contains no matcher from outside. |
| RootMatcher.CreateRoot | duckdb/extension/autocomplete/matcher.cpp:1168-1199 | From grammar text and start rule: fails exactly if the text does not parse or the start rule cannot be built, and else gives a matcher that derives exactly what the start rule derives, when no function mentioned on the way from the start rule calls itself. |
| RootMatcher.BindBuiltins | duckdb/extension/autocomplete/matcher.cpp:1178-1195 | The eighteen built-in names are bound to leaves of their own. |
| RootMatcher.BuiltTogether | duckdb/extension/autocomplete/matcher.cpp:1019-1157 | When the start rule is built, the rules built on the way are readable and mention only one another and built-in names. |
| RootMatcher.NotStartable | duckdb/extension/autocomplete/matcher.cpp:1028-1051 | When building fails, no set of rules with the start rule can be built. |
| RootMatcher.PassingIsInLanguage | duckdb/extension/autocomplete/autocomplete_extension.cpp:652-677 | A statement that passes the check is a statement of the grammar. |
| RootMatcher.ParsedSourceValid | duckdb/extension/autocomplete/matcher.cpp:743-927 | The parsed rules that the start rule mentions satisfy what the compiler relies on. |
| RootMatcher.PartIsPart | duckdb/extension/autocomplete/matcher.cpp:1019-1070 | The rules mentioned from the start rule on contain all that any of them mentions. |
| RootMatcher.RankedExactly | duckdb/extension/autocomplete/matcher.cpp:1005 | The rank that compiling needs exists exactly if no function calls itself, directly or through others. |
| Tokenizer.ParserTokenizer.TokenizeInput | duckdb/extension/autocomplete/tokenizer.cpp:153-388 | The state machine ends despite its backward steps, by the text behind the last token start and then the text left; it yields exactly the tokens and statements of the lexer, whose events are those of TokenSpans.LexExactly, and fails exactly if the text ends inside a comment. |
| TokenSpans.LexExactly | duckdb/extension/autocomplete/tokenizer.cpp:153-388 | A list of tokens and semicolons with their places, and a state at the end, is the one of the lexer if and only if it covers the text: each token is a span of its kind, between any two there are only spaces, whole comments and dollar signs that open nothing, and behind the last there is nothing more, or what the end of the text cuts off. |
| TokenSpans.NextIsSpan | duckdb/extension/autocomplete/tokenizer.cpp:153-388 | What is read next is such a span, by the bytes alone: a quoted text up to its first undoubled quote, a comment up to its first line break or closing mark, a dollar-quoted string up to the first marker that is the same, a number up to the last digit or dot of its run, the longest operator of several bytes, or a whole run of operator or of other bytes. |
| TokenSpans.SpanOnce | duckdb/extension/autocomplete/tokenizer.cpp:153-388 | At each place there is only one such span. |
| TokenSpans.LastWordStarts | duckdb/extension/autocomplete/tokenizer.cpp:373-386 | The last word is what the end of the text cuts off; when that is nothing, it is empty or a single dollar sign. |
| TokenizerProperties.CollectSplits | duckdb/extension/autocomplete/autocomplete_extension.cpp:617-620 | Each statement has just the tokens between two semicolons, in order, and the pending tokens are those behind the last one. |
| Tokenizer.ParserTokenizer.Standard | duckdb/extension/autocomplete/tokenizer.cpp:161-256 | One turn between tokens. |
| Tokenizer.ParserTokenizer.Plain | duckdb/extension/autocomplete/tokenizer.cpp:229-256 | One turn at the first byte of an operator, a number or a keyword: multi-byte operators go before single bytes. |
| Tokenizer.ParserTokenizer.Dollar | duckdb/extension/autocomplete/tokenizer.cpp:178-213 | One turn at a dollar sign: a marker opens, or the sign is dropped. |
| Tokenizer.ParserTokenizer.InsideWord | duckdb/extension/autocomplete/tokenizer.cpp:257-292 | One turn inside a number, an operator or a keyword, with the step back to the last digit or dot. |
| Tokenizer.ParserTokenizer.BackToNumber | duckdb/extension/autocomplete/tokenizer.cpp:264-266 | The backward loop stops right behind the last digit or dot of the number: it is the number of TokenSpans.NextIsSpan, behind which no digit or dot of the run is left. |
| Tokenizer.ParserTokenizer.InsideQuotes | duckdb/extension/autocomplete/tokenizer.cpp:293-316 | One turn inside quotes, where a doubled quote does not end the token. |
| Tokenizer.ParserTokenizer.InsideComment | duckdb/extension/autocomplete/tokenizer.cpp:317-329 | One turn inside a comment. |
| Tokenizer.ParserTokenizer.InsideDollars | duckdb/extension/autocomplete/tokenizer.cpp:330-367 | One turn inside a dollar-quoted string: only its own marker ends it. |
| Tokenizer.ParserTokenizer.CloseDollars | duckdb/extension/autocomplete/tokenizer.cpp:357-366 | The token of a dollar-quoted string is the text between its markers, in single quotes. |
| Tokenizer.ParserTokenizer.PushToken | duckdb/extension/autocomplete/tokenizer.cpp:132-138 | The token is the slice of the text; nothing is pushed for an empty one. |
| Tokenizer.ParserTokenizer.OnStatementEnd | duckdb/extension/autocomplete/autocomplete_extension.cpp:617-620 | A semicolon ends the statement and begins an empty one. |
| Tokenizer.LastWithin | duckdb/extension/autocomplete/tokenizer.cpp:373-386 | The start of the last word lies within the text, also when it skips the quote of an open string. |
| TokenizerProperties.EventsInOrder | duckdb/extension/autocomplete/tokenizer.cpp:153-371 | Tokens and statement ends come from disjoint, ordered spans of the text; an ordinary token is its span, a dollar-quoted one is the text between two equal markers, in single quotes. |
| TokenizerProperties.WordIsTokenText | duckdb/extension/autocomplete/tokenizer.cpp:153-371 | Every ordinary token is a number, an operator, a keyword, a quoted text or a fixed operator, in the exact sense that reading it alone needs. |
| TokenizerProperties.TokenRead | duckdb/extension/autocomplete/tokenizer.cpp:153-371 | Such a text with a blank behind it is read as that token, wherever it stands. |
| TokenizerProperties.DollarTokenText | duckdb/extension/autocomplete/tokenizer.cpp:357-361 | The token of a dollar-quoted string can be read back as one token exactly if every single quote in its content is doubled. |
| TokenizerProperties.TokenizePrint | duckdb/extension/autocomplete/tokenizer.cpp:153-388 | Tokens joined by blanks are tokenized to the same tokens, in one statement, with no last word. |
| TokenizerProperties.TokenizingIsStable | duckdb/extension/autocomplete/tokenizer.cpp:153-388 | The tokens of any statement of any text, printed with blanks, are tokenized to the same tokens if and only if each is a token text, as all are but dollar-quoted strings with an undoubled single quote. |
| TokenizerProperties.ReadBackTexts | duckdb/extension/autocomplete/tokenizer.cpp:293-316 | Tokens that are read back as printed are token texts: from the first one that is not, a quoted text that ends elsewhere is read, or none. |
| TokenizerProperties.TokensAreTexts | duckdb/extension/autocomplete/tokenizer.cpp:153-371 | Every token of any text is a token text or begins with a single quote. |
| TokenizerProperties.DollarIsLastWord | duckdb/extension/autocomplete/tokenizer.cpp:180-183 | A concrete text, a single dollar sign, that has no token but itself as its last word. |
| UnicodeSpaces.StripUnicodeSpaces | duckdb/extension/autocomplete/autocomplete_extension.cpp:381-488 | The four goto loops end and find exactly the Unicode spaces of the plain text, which PlainText.AgreesExactly says what it is; the rebuilt query has one blank for each and every other byte in its place. |
| UnicodeSpaces.SpacesAreSpans | duckdb/extension/autocomplete/autocomplete_extension.cpp:391-427 | The recorded spans are Unicode-space encodings within the text, in increasing order and disjoint. |
| UnicodeSpaces.FoundExactly | duckdb/extension/autocomplete/autocomplete_extension.cpp:391-454 | A span is recorded at a place exactly if the scan takes the place for plain text, an encoding starts there, and two more bytes follow. |
| PlainText.AgreesExactly | duckdb/extension/autocomplete/autocomplete_extension.cpp:391-485 | Quotes, dollar quotes and line comments are read apart from the scan. At all places that two more bytes follow, the scan takes for plain text what is outside of them, and the last dollar signs of dollar-quoted strings, if and only if at every dollar sign outside of them: what looks like a tag is a whole marker, no closing marker overlaps it, and the last dollar sign of the string does not look like the start of another. |
| PlainText.QuotesRead | duckdb/extension/autocomplete/autocomplete_extension.cpp:455-467 | The scan of quoted text and a reading by its first undoubled quote, each with a definition of its own, end at the same place. |
| PlainText.CommentRead | duckdb/extension/autocomplete/autocomplete_extension.cpp:479-485 | So do the scan of a comment and a reading by its first line break. |
| PlainText.SameTags | duckdb/extension/autocomplete/autocomplete_extension.cpp:432-449 | The bytes of a tag are those of the tokenizer. |
| PlainText.FoundOutsideQuotes | duckdb/extension/autocomplete/autocomplete_extension.cpp:391-454 | Under that condition a span is recorded at a place exactly if it is outside quotes and comments, an encoding starts there, and two more bytes follow. |
| PlainText.OverlapStep | duckdb/extension/autocomplete/autocomplete_extension.cpp:468-478 | Where the closing marker overlaps the opening one, the readings agree only if the text is about to end. |
| PlainText.CloseStep | duckdb/extension/autocomplete/autocomplete_extension.cpp:468-478 | Where it stands apart, they agree unless its last dollar sign seems to open another string. |
| PlainText.SpaceBehindDollar | duckdb/extension/autocomplete/autocomplete_extension.cpp:432-449 | A concrete text whose no-break space behind a dollar sign stays, taken for a tag. |
| PlainText.SpaceBehindString | duckdb/extension/autocomplete/autocomplete_extension.cpp:468-478 | A concrete text whose no-break space right behind a dollar-quoted string stays. |
| PlainText.SpaceInDollars | duckdb/extension/autocomplete/autocomplete_extension.cpp:468-478 | A concrete text whose no-break space in dollar quotes is replaced. |
| UnicodeSpaces.RebuiltIsRight | duckdb/extension/autocomplete/autocomplete_extension.cpp:353-366 | In the rebuilt text every uncovered byte stands where the spaces before it move it, every span is one blank, and there is nothing else. |
| UnicodeSpaces.ReplaceUnicodeSpaces | duckdb/extension/autocomplete/autocomplete_extension.cpp:353-366 | The loop rebuilds the text span by span; without spans it reports that. |
| UnicodeSpaces.RegularLoop | duckdb/extension/autocomplete/autocomplete_extension.cpp:391-454 | Plain text: spaces found and those still to be found are all of them, whatever loop comes next. |
| UnicodeSpaces.TagLoop | duckdb/extension/autocomplete/autocomplete_extension.cpp:432-449 | The tag of a dollar-quoted string, or back to plain text. |
| UnicodeSpaces.InQuotesLoop | duckdb/extension/autocomplete/autocomplete_extension.cpp:455-467 | Quoted text ends at an undoubled quote. |
| UnicodeSpaces.InDollarQuotesLoop | duckdb/extension/autocomplete/autocomplete_extension.cpp:468-478 | Dollar-quoted text ends at its own marker, on whose last dollar sign plain text goes on. |
| UnicodeSpaces.InCommentLoop | duckdb/extension/autocomplete/autocomplete_extension.cpp:479-485 | A comment ends at its first line break, or with the text. |
| UnicodeSpaces.Recorded | duckdb/extension/autocomplete/autocomplete_extension.cpp:393-427 | The byte comparisons record exactly the listed encodings. |
| UnicodeSpaces.SpacesAreEncodings | duckdb/extension/autocomplete/autocomplete_extension.cpp:393-427 | The byte patterns are the UTF-8 encodings of a list of code points, and of no others. |
| UnicodeSpaces.LastSpaceStays | duckdb/extension/autocomplete/autocomplete_extension.cpp:392 | A concrete text whose no-break space stays because it is in the last two bytes. |
| UnicodeSpaces.ClosingDollarOpens | duckdb/extension/autocomplete/autocomplete_extension.cpp:432-475 | A concrete text in which the dollar sign that closes an empty dollar-quoted string is taken to open another. |
| LambdaLists.ExecuteLambda | duckdb/extension/core_functions/lambda_functions.cpp:274-359 | For every batch size of at least one: a row is NULL exactly if its list is; every other row is the row-by-row result, with that row's captures and 1-based index; offsets are the sizes of the results before; the child vector is all results, one behind the other. |
| LambdaLists.FilteredExactly | duckdb/extension/core_functions/lambda_functions.cpp:104-160 | The row-by-row filter keeps exactly the elements whose answer is TRUE, not NULL, each once and in order. |
| LambdaLists.PicksArgument | duckdb/extension/core_functions/lambda_functions.cpp:184-220 | A lambda that gives back its argument at some place shows what it was given: the 1-based index if it asks for it, then the element, then the captures of the row. |
| LambdaLists.FilterAppend | duckdb/extension/core_functions/lambda_functions.cpp:104-160 | One batch of answers: entries, carried offset, length and source length, and the appended elements continue the row-by-row filter; the row index never leaves the known lengths. |
| LambdaLists.ListFilterInfo.SkipEmptyLists | duckdb/extension/core_functions/lambda_functions.cpp:119-124 | Empty and NULL lists get the current offset and length 0. |
| LambdaLists.ListFilterInfo.Count | duckdb/extension/core_functions/lambda_functions.cpp:126-145 | One element: counted if kept; the last element of a list writes its entry and resets the counters. |
| LambdaLists.ListFilterInfo.NextElement | duckdb/extension/core_functions/lambda_functions.cpp:119-145 | The element is counted in for the row it belongs to. |
| LambdaLists.CountsElement | duckdb/extension/core_functions/lambda_functions.cpp:126-145 | Counting one element in keeps that the entries written and the elements kept are those of the row-by-row filter. |
| LambdaLists.SkipsEmptyList | duckdb/extension/core_functions/lambda_functions.cpp:119-124 | Skipping an empty list with the current offset and length 0 keeps that the entries written are those of the row-by-row filter. |
| LambdaLists.OnePlace | duckdb/extension/core_functions/lambda_functions.cpp:116-146 | The place of an element among all elements determines its row and its place in the row. |
| LambdaLists.BeforeSlice | duckdb/extension/core_functions/lambda_functions.cpp:75-80 | The slice of the child vector that an entry names is the result of its row. |
| LambdaLists.LambdaExecuteInfo.ExecuteExpression | duckdb/extension/core_functions/lambda_functions.cpp:184-220 | The lambda sees, for every element of the batch, its index if asked for, the element and the captures of its row, constant or not. |
| LambdaLists.GatherRow | duckdb/extension/core_functions/lambda_functions.cpp:323-351 | The elements of a row are gathered in order; a full batch is run and emptied first. |
| LambdaLists.NextRow | duckdb/extension/core_functions/lambda_functions.cpp:304-352 | One row: NULL, empty, or gathered. |
| LambdaLists.SetResultEntry | duckdb/extension/core_functions/lambda_functions.cpp:75-80 | For a transform the entry is known at once; for a filter the length is noted. |
| LambdaLists.AppendResult | duckdb/extension/core_functions/lambda_functions.cpp:333-334 | A batch of answers continues the result of either function. |
| LambdaLists.DoneIsExpected | duckdb/extension/core_functions/lambda_functions.cpp:354-358 | After the last batch all rows are complete, trailing empty ones too. |
| Dp.AssignStatistics | assigners/dp.py:38-71 | With sizes relative to statistic 0, no table exactly if the budget cannot hold all empty statistics. If the optimum fits into 32 bits, every partition gets a statistic, no assignment within the budget prunes more, none that prunes as much is smaller, and no budget is left; and if each pruning fits, only then. |
| Dp.FillTable | assigners/dp.py:42-55 | The table holds the optimum for every number of partitions and every budget if and only if the optimum for all partitions and the whole budget is below 2^31. |
| Dp.BestIsOptimum | assigners/dp.py:42-55 | The recurrence of the table is the maximum of the total pruning over all assignments within the budget. |
| Dp.TableOverflows | assigners/dp.py:42 | A concrete table whose optimum does not fit. |
| Dp.FillRow | assigners/dp.py:48-55 | One row, over the statistics in any order: vector sums that wrap, shifted around and zeroed where the choice does not fit, then maximised. |
| Dp.WithChoiceAt | assigners/dp.py:53-54 | Shifting and zeroing leaves, at each budget, the sum for the budget less the size, or 0 if the size does not fit. |
| Dp.Backtrack | assigners/dp.py:58-71 | On an exact table the walk back assigns every partition and ends with no budget left, at the smallest of the optimal assignments. |
| Dp.FindChoice | assigners/dp.py:64-71 | On an exact table some statistic passes the equality test, and one that passes is exact. |
| Dp.ChoiceTracks | assigners/dp.py:64-71 | On any table, a statistic that passes the equality test accounts for the difference of the entries: no sum of them can wrap to an entry. |
| Dp.Argmax | assigners/dp.py:59 | The first of the largest values. |
| Dp.RightIsBest | assigners/dp.py:58-71 | What makes the walk end at 0 and at the smallest optimum. |
| Dp.BestGrows | assigners/dp.py:42-55 | More partitions or more budget never prune less. |
| Dp.BestInOriginalSizes | assigners/dp.py:38-40 | The best in relative sizes is the best in the sizes of the table. |
| Greedy.LazyGreedy.Run | assigners/greedy.py:17-44 | The loop ends; budget and current sizes add up to the initial budget; mapping, sizes and powers match; the budget is kept if the empty statistics fit it. Unless an upgrade freed budget, nothing that prunes more than what its partition has fits at the end. None does if every option that prunes is no smaller than its partition's empty statistic; if every one is larger, it never divides by zero either; and if one is not, it frees budget or divides by zero with a budget that the empty statistics use up. Where empty statistics are free, it gets to the end of a run of the eager program. |
| Greedy.LazyGreedy.Round | assigners/greedy.py:33-44 | One round takes an entry with the smallest key and drops it, puts it back with its current key, or upgrades, and fails exactly if it divides by zero. |
| Greedy.LazyGreedy.Read | assigners/greedy.py:17-31 | Reading leaves the specified state: empty statistics in place, every other option waiting with its ratio. |
| Greedy.LazyGreedy.Pop | assigners/greedy.py:34 | An entry with the smallest key leaves the queue. |
| GreedySafety.SafeExactly | assigners/greedy.py:33-44 | With sizes that are not negative: for every budget that holds the empty statistics and however ties are broken, no run frees budget or divides by zero, if and only if every option that prunes is larger than the empty statistic of its partition. |
| EagerGreedy.LazyIsEager | assigners/greedy.py:33-44 | Where the empty statistics of what prunes are free, every run, with its out-of-date ratios, is a run of the eager program, which always takes an option that gains most per byte of all that prune more and fit; at the end nothing is open for it. |
| EagerGreedy.BestButRaw | assigners/greedy.py:33-44 | On every table where options that prune are larger: what gains more per byte than the option that is taken still waits with the ratio it started with, from before the empty statistic was in place. |
| EagerGreedy.StaysOnTime | assigners/greedy.py:33-44 | A round brings no option behind its exact ratio. |
| Greedy.LateIsPassedOver | assigners/greedy.py:33-44 | A concrete table whose empty statistic takes space: the run ends with an option that the eager program would never have taken first, and without the better one. |
| GreedySafety.NeverFrees | assigners/greedy.py:33-44 | Where every option that prunes is larger, no run frees budget and no round can divide by zero. |
| GreedySafety.KeptBudgetIsMaximal | assigners/greedy.py:33-44 | On every table, a run that gets to its end without freeing budget is locally maximal: what prunes more than what its partition has does not fit. |
| GreedySafety.StepSettles | assigners/greedy.py:33-44 | A round that frees no budget keeps every option waiting or rightly dropped. |
| GreedySafety.EndIsMaximal | assigners/greedy.py:33-44 | Where every option that prunes is no smaller, no budget is freed, so the end of every run is locally maximal. |
| GreedySafety.AlwaysFrees | assigners/greedy.py:33-44 | Where one is not larger, every run that gets to its end has freed budget, if the empty statistics use up the budget. |
| GreedySafety.FreesSometime | assigners/greedy.py:33-44 | And some run frees budget or comes to divide by zero. |
| GreedySafety.StepIsSafe | assigners/greedy.py:33-44 | One round keeps that options with more power than the current one are larger, and that options behind their exact ratio, and those they beat, still have the ratio they started with; it frees no budget. |
| GreedySafety.UpgradeIsLarger | assigners/greedy.py:41-44 | When an option is taken by its exact ratio, an option that prunes more is larger. |
| GreedySafety.LateWasLate | assigners/greedy.py:36-44 | Taking an option puts no other behind its exact ratio. |
| GreedySafety.RunConserves | assigners/greedy.py:17-44 | Conservation holds in every state of every run. |
| GreedyState.StartIsRead | assigners/greedy.py:17-31 | Reading any lines leaves the empty statistics in place and paid for, and all other options waiting with their ratio. |
| GreedyState.StepConserves | assigners/greedy.py:33-44 | Every round keeps the sum of budget and sizes and the match of mapping, size and power. |
| GreedyState.StepEnds | assigners/greedy.py:33-44 | A round leaves the queue shorter, or as long with one out-of-date key less. |
| GreedyState.UpgradeKeepsSettled | assigners/greedy.py:41-44 | An upgrade that frees no budget keeps every dropped option rightly dropped. |
| GreedyState.RekeyLowersStale | assigners/greedy.py:37-40 | Putting an option back with its current key leaves one out-of-date key less. |
| Greedy.FreedBudgetIsLost | assigners/greedy.py:33-44 | A concrete run that ends with an option that both prunes more and fits, because a better option was smaller than what it replaced. |
| Greedy.LevelDividesByZero | assigners/greedy.py:37 | A concrete input whose first round divides by zero, as an option is as large as what it replaces. |
| GreedySimple.Assign | assigners/greedy_simple.py:11-30 | The options are sorted; a lookup fails exactly if the partition of some option has no empty statistic; else an option is taken exactly if its partition has none yet and it fits in full what the options before it left, and mapping and budget say so. |
| GreedySimple.SortSorts | assigners/greedy_simple.py:25 | Sorting keeps all options and orders them by more pruning, then size, partition and statistic. |
| GreedySimple.PrecedesExactly | assigners/greedy_simple.py:22-25 | The order is that of the tuples (minus pruning, size, partition, statistic), compared at the first place where they differ. |
| GreedySimple.FirstFitIsBest | assigners/greedy_simple.py:27-30 | Among all selections of at most one option per partition within the budget, this is the lexicographically greatest in the order of the options. |
| GreedySimple.FirstFitLeavesNothing | assigners/greedy_simple.py:27-30 | In the end no option of a partition without one fits. |
| GreedySimple.Read | assigners/greedy_simple.py:13-22 | Empty statistics are mapped and paid for, and the other lines are the options. |
| Dominance.LazyNeverBeatsDp | assigners/greedy.py:17-44 | The lazy greedy assignment keeps the budget in original sizes and prunes no more than the exact one. |
| Dominance.SimpleNeverBeatsDp | assigners/greedy_simple.py:13-30 | The simple greedy assignment keeps the budget in original sizes and prunes no more than the exact one. |
| Dominance.SimpleKeepsBudget | assigners/greedy_simple.py:27-30 | Charging options in full keeps the original budget. |
| Outliers.Scatter | generate_outliers.py:14-28 | Every place holds the last row whose place it is, or what it held before; there is room for as many rows as places, or with a gap of 1 for half as many more, and one row more runs out of places. |
| Outliers.Advance | generate_outliers.py:20-28 | The next place, past the outliers and then onto them, is the place of the next row by the closed form. |
| Outliers.OneToOneExactly | generate_outliers.py:14-28 | As many rows as places fill every place with exactly one row if and only if the gap is at least 2 or there are at most two places. |
| Outliers.RowOfPlace | generate_outliers.py:14-28 | With a gap of at least 2, every row has a place, whose row it is. |
| Outliers.PlaceOfRow | generate_outliers.py:14-28 | With a gap of at least 2, every place has a row, whose place it is. |
| Outliers.SortedScatter | generate_outliers.py:14-28 | With sorted rows the other places hold the smallest rows in order, and the places gap-1 modulo gap the largest, in order. |
| TimeBucket.Add | duckdb/extension/icu/icu-dateadd.cpp:67-133 | Microseconds of either sign are added exactly to any timestamp, and refused exactly if the sum, or the sum with what exceeds whole milliseconds, is out of range; infinite timestamps stay. |
| TimeBucket.AddedInRange | duckdb/extension/icu/icu-dateadd.cpp:87-91 | From a timestamp in range, only the whole sum has to be in range. |
| TimeBucket.AddMillis | duckdb/extension/icu/icu-dateadd.cpp:98-130 | Splitting milliseconds into seconds, minutes and hours by truncation, and adding them in either order, adds them all. |
| TimeBucket.CalendarAddHour | duckdb/extension/icu/icu-dateadd.cpp:47-65 | Hours beyond 32 bits are added in parts, without loss. |
| TimeBucket.Sub | duckdb/extension/icu/icu-dateadd.cpp:140-144 | Subtracting adds the negation, which the smallest 64-bit value does not have. |
| TimeBucket.SetTime | duckdb/extension/icu/icu-datefunc.cpp:135-150 | Milliseconds and a rest of less than a thousand microseconds make up the timestamp, also before the epoch. |
| TimeBucket.SetAndGetUnsafe | duckdb/extension/icu/icu-datefunc.cpp:93-150 | A timestamp comes back out of the calendar as it went in, except for the first 808 of the 64-bit range, whose milliseconds overflow when they are turned into microseconds. |
| TimeBucket.SetAndGet | duckdb/extension/icu/icu-datefunc.cpp:103-150 | With the checks, it comes back exactly if it is in range, and is refused otherwise. |
| TimeBucket.GetTime | duckdb/extension/icu/icu-datefunc.cpp:103-133 | The timestamp of the calendar and a rest carried as an unsigned number, negative rests too, or an error if it overflows or its day does. |
| TimeBucket.DayFitsInRange | duckdb/extension/icu/icu-datefunc.cpp:119-124 | The days that fit are those of all finite timestamps but the earliest. |
| TimeBucket.WidthConvertibleToMicrosCommon | duckdb/extension/icu/icu-timebucket.cpp:64-78 | Truncating division with the adjustment for negative differences gives the floor, and overflows are refused. |
| TimeBucket.TimeBucket | duckdb/extension/icu/icu-timebucket.cpp:160-168 | Bucketing from the default origin; widths that are not positive are refused. |
| TimeBucket.TimeBucketWithOrigin | duckdb/extension/icu/icu-timebucket.cpp:262-270 | Bucketing from a given origin; an infinite origin gives NULL. |
| TimeBucket.TimeBucketWithOffset | duckdb/extension/icu/icu-timebucket.cpp:206-217 | Bucketing with an offset subtracted first and added last. |
| TimeBucket.BucketIsFloor | duckdb/extension/icu/icu-timebucket.cpp:64-78 | bucket <= ts < bucket + width, at a multiple of the width from the origin; there is a bucket exactly if the two differences fit into 64 bits and its start can be added to the origin, which from an origin in range means that it is no earlier than the first whole day. |
| TimeBucket.OriginIsMonday | duckdb/extension/icu/icu-timebucket.cpp:20-22 | The default origin is midnight of 2000-01-03, counted in days by the leap years since 1970, and a Monday. |
| TimeBucket.WeekStartsOnMonday | duckdb/extension/icu/icu-timebucket.cpp:20-22 | A bucket of seven days starts on a Monday, at midnight. |
| TimeBucket.BucketIdempotent | duckdb/extension/icu/icu-timebucket.cpp:64-78 | The bucket of a bucket is itself. |
| TimeBucket.BucketMonotone | duckdb/extension/icu/icu-timebucket.cpp:64-78 | Later timestamps have no earlier buckets. |
| TimeBucket.OffsetIsShiftedOrigin | duckdb/extension/icu/icu-timebucket.cpp:206-217 | A bucket with an offset is the floor from the origin moved by the offset, and equals the bucket from that origin wherever there is one. |
| TimeBucket.SmallestOffset | duckdb/extension/icu/icu-timebucket.cpp:206-217 | The smallest 64-bit offset, which has no negation, never gives a bucket. |

## Left out

- Leaf matchers: identifiers, numbers, strings and operators are arbitrary predicates on one token, and a keyword is its text; case folding, reserved words, keyword scores and extra characters are not modelled (`duckdb/extension/autocomplete/matcher.cpp:46-81`, 282-520 and 1173-1176).
- Agreement of matching with parse trees is one way: what is accepted is derivable, but not the reverse, as matching does not go back into a list once a child has succeeded. What is accepted is characterised by proofs of success and refusal instead (MatchProofs.RunsExactly).
- PegCheck.CheckStatements: requires that matching ends on each statement it looks at. A rank is sufficient for that. Where only last alternatives can be empty it is necessary for all runs, with all tokens and leaves, to end (MatchEnds.EndsExactly), but not on other graphs (MatchEnds.ShadowedEnds) nor for these statements alone. That the shipped grammar has a rank is not proved.
- RootMatcher.CreateRoot: that no function mentioned on the way from the start rule calls itself is sufficient for compiling to end, not necessary, as an error may come up before such a call; the errors for more than one parameter and for too many closing brackets cannot arise from parsed rules and are not modelled.
- The order in which suggestions are ranked and looked up in the catalog, and the tokenizer of completion with its position of the last word: user interface.
- GrammarLayout.ParsePrint: a rule at the very end of the text may have open brackets or a trailing alternative, and such rules are printed by no listing of rules; GrammarLayout.ParseLayout has them in the last place. A NUL byte inside a grammar, at which it would end, is in no layout.
- Suggestions.ProposedExactly: where a matcher is met twice, what its second visit adds depends on the first, and only Suggestions.VisitsAll is said.
- Reading behind the end of the grammar text after a trailing backslash or an unfinished regular expression is an error of its own in the model.
- Where dollar-quoted strings end, the tokenizer and the Unicode-space scan disagree; each is modelled on its own.
- Vector formats, validity masks and the expression executor of `duckdb/extension/core_functions/lambda_functions.cpp`: columns are sequences of values with NULL among them, all inconstant columns share one selection vector, and a lambda is a function, so lambdas that are not repeatable are not modelled; nor is the collapse of an all-constant result, the NULL-typed list column, or `list_reduce`.
- Reading CSV files and writing assignments: the assigners start from tables. A table that lacks a statistic for some partition, which makes `dp.py` fail, is not modelled.
- Dp.FillTable: pruning powers outside 32 bits, which NumPy may refuse before it adds them, wrap in the model.
- Dp.AssignStatistics: when the optimum does not fit, the assignment is incomplete or not the best, but which is not said.
- Greedy.LazyGreedy.Pop: among equal keys any entry may be popped, where the heap compares further fields; ratios are real numbers, not floating point.
- Greedy.LazyGreedy.Run: a run that freed budget may end locally maximal or not, and which does is not characterised; where empty statistics take space, how far the end is from that of the eager program is not said (Greedy.LateIsPassedOver shows that it can differ).
- GreedyState.IsInput: an option of size 0, on which reading divides by zero, and a statistic given twice for one partition are excluded.
- GreedySimple.Assign: the library's sort is modelled as insertion into a sorted sequence.
- Outliers.Scatter: a gap of 0, which divides by zero, and negative gaps are excluded.
- Months, days and time zones in the ICU extension: the calendar is an exact counter of milliseconds in which adding no months and no days changes nothing, and a double holds every time exactly.
- The rest of DuckDB and the scripts around it.
