# gomitmproxy: a verified model

A Dafny model of the parts of gomitmproxy whose behaviour is hardest to see from the code: its two query
languages, the concurrent parts of the proxy, the life of one request, and the protocol and data structures of
the web UI. Each module follows one piece of the program; where the program works in place, a class or a method
with the same fields and loops is proved to compute a function of the old state, and the theorems are about that
function or about every run of a step relation. `dafny verify dfyconfig.toml` checks the whole project.

**HTTPQL (Go).** `HttpqlAst` is the tree and its printer, `HttpqlLexer` the scanner with the lexer on top and
`HttpqlTokens` what its tokens are without following it, `HttpqlSyntax` the grammar as functions, `HttpqlGrammar`
the same as derivation trees with what is accepted, `HttpqlParser` the parser object with its two-token window,
`HttpqlEval` the evaluator, `LikePattern` the rewriting of `like` patterns to regular expressions.
`HttpqlQuoting` says what a printed value stands for, `HttpqlRoundTrip` what printing and parsing keeps, and
`HttpqlReading` what a parsed text means without mentioning the parser. `BleveQuery` says when the compiled index
query gives the same answer as the evaluator, `Rounding` what the index does to large numbers, `BleveDiffers` exactly
where the two part, and `StoredSearch` which of the matching flows a search returns.

**The web filter language (JavaScript and TypeScript).** `FilterGrammar` gives parsing expression grammars a
meaning and holds the grammar from the header comment of the generated parser; `FilterSyntax` and `FilterParser`
are that parser, as functions on positions and as the object with `peg$currPos`, and `FilterCost` how often it
looks at a factor; `FilterRoundTrip` renders rule trees; `FlowFilter` evaluates them with the memo that is written
into the rules; `FilterScopes` says which texts a keyword searches and for what, `FilterMeaning` composes parser and
evaluation, and `FilterQuotes` says what quotes inside a keyword do.

**The proxy.** `TlsDial` is the rendezvous of the two TLS handshakes (the offered protocol is that of section 3.2
of RFC 7301), `Transfer` the two copying goroutines, `ConnClose` the mutually recursive Close methods as objects
and `CloseRace` the same under arbitrary interleaving, `CloseReturn` what its caller can rely on, `BodyBuffer` the
reading of a body. One request with addons and a network that may answer anything at each point is a machine in
`ExchangeRun` over the log of events of `ExchangeLog`; `Pipeline` proves that the code is one run of it,
`ExchangeRules` that its runs are just the logs in which each event follows from those before it, and the other
modules what every run has: `ExchangeOrder` the order, `ExchangeCalls` what addons see and when bodies are
streamed, `ExchangePlan` which calls are made, `ExchangeEnds` the causes of a panic and what is written,
`ExchangeQuiet` the runs with addons that behave.

**The web UI.** `WireFrames` and `WireProtocol` are the binary frames in Go and TypeScript (UUID text as in
section 3 of RFC 4122) and `WireLayout` what they are byte by byte, `UiEdits` the hand-off of edits to waiting flows, `UiMessages` the announcements and the
wait mark, `ConnSlice` the array of connections that is shifted under running loops, `UiProgress` the progress of
messages per flow, `FlowList` the bounded list with its index, `TextCut` and `EditText` the textual form in which a
user edits a message. `Wrappers` and `Strings` hold what the models share.

Where the code does not do what its documentation says or a caller might expect, the model follows the code:
`ParseQuery` leaves tokens after a complete query unread; the printer quotes with `%q` but the lexer only trims
quotes; a clause that ends the text after its colon is accepted with six tokens and an empty value; in
`resbody:"hello world"`, shown in docs/web-filter-rules_CN.md, the quotes are characters of the keyword: such a text
is refused or split at a connective, or, without a blank or parenthesis, looked for with its quotes; the quotes have
to go around the whole keyword (`FilterQuotes`); `notx` is `not x`; a filter keyword in `n` pairs of parentheses is
parsed with over 4^n calls; a message once marked as waiting keeps its mark for the connections that
come after; while a UI connection is removed another can be left out or served twice by a loop; a client Close may
return with an attached server open, when another Close won or when the server was attached after the call had
looked for one; a search returns one page of ten hits; a header named `__proto__` is lost in the text form; types
sent at a break point are sent again later.

## Model

| member | source | states |
|---|---|---|
| HttpqlTokens.LongestToken | httpql/lexer.go:43-77 | the scanned text is the longest identifier, number or quoted text that starts at its place: no longer piece is one; quoted texts are described by escaping, not by following the scanner |
| HttpqlTokens.LexCovers | httpql/lexer.go:35-77 | every text is white space and such longest tokens in turn, and the lexer delivers just these, in order: the scanned texts and the space between them make up the input |
| HttpqlTokens.TokenMeans | httpql/lexer.go:43-77 | the token of each text: identifiers are lowered letter by letter and are keywords when they then spell one, numbers are kept, quoted texts lose the quotes at their ends, four characters are tokens of their own |
| HttpqlTokens.CharacterClasses | httpql/lexer.go:35-41 | which characters identifiers, numbers and white space are made of |
| HttpqlLexer.Lexer.NextToken | httpql/lexer.go:43-77 | the lexer object delivers the tokens of the text one by one, in order, and the end token exactly when none is left |
| HttpqlSyntax.ParseOr | httpql/parser.go:37-55 | parsing terminates on every token list and consumes at least one token on success |
| HttpqlParser.Parser.NextToken | httpql/parser.go:21-24 | the window of two tokens moves one token along the unread input |
| HttpqlParser.Parser.ParseClause | httpql/parser.go:94-132 | the object's clause parser gives the clause, the error and the remaining input of the grammar |
| HttpqlParser.Parser.ParseFactor | httpql/parser.go:76-92 | the same for a factor with its parentheses |
| HttpqlParser.Parser.ParseAnd | httpql/parser.go:57-74 | the same for the loop that reads ANDs |
| HttpqlParser.Parser.ParseQuery | httpql/parser.go:26-55 | the same for a whole query: result, error and consumed prefix; what follows stays unread |
| HttpqlGrammar.ExprParsed | httpql/parser.go:37-132 | every derivation of the grammar is parsed to its query with what follows it left over; the loops go on from it where a connective follows |
| HttpqlGrammar.AcceptsExactly | httpql/parser.go:26-132 | the parser accepts exactly the token lists that begin with a derivation of the grammar, its clauses buildable, with no connective after it; it returns that derivation's query and leaves the rest; a value may be missing only at the end |
| HttpqlGrammar.ConsumesLongest | httpql/parser.go:26-132 | what it consumes is the longest of all derivations that the tokens begin with |
| HttpqlGrammar.DanglingConnective | httpql/parser.go:43-67 | no query followed by just an AND or OR is accepted |
| HttpqlGrammar.ClauseBuildsExactly | httpql/parser.go:134-187 | a clause is built exactly for the fields of its namespace and for numbers that read as ints; the error names the field or the number |
| HttpqlGrammar.ClauseFailsExactly | httpql/parser.go:94-132 | a clause fails at the first of its places that does not fit, with the error of that place and what stands there |
| HttpqlGrammar.AtoiExactly | httpql/parser.go:134-187 | which texts read as an int: digits after at most one sign, in range |
| HttpqlEval.OperatorPairs | httpql/eval.go:106-131 | of each operator and its negation exactly one holds on every text, also for patterns that do not compile; `like` is the wildcard match; equal texts are contained |
| HttpqlEval.IntOperators | httpql/eval.go:145-161 | on numbers exactly one of `lt`, `eq` and `gt` holds, `gt` of the larger ones, and the others are their negations |
| HttpqlEval.UnknownOperators | httpql/eval.go:106-170 | any other operator holds of nothing |
| HttpqlEval.PortClauseMeans | httpql/eval.go:62-74 | a clause on the port compares with 443 for https and 80 otherwise when the URL has no port, port 0 or none that is a number, with the largest int for digits that are too long, and with any other number itself |
| HttpqlEval.EvalAndQuery | httpql/eval.go:11-38 | an AND node holds of a flow exactly when both sides do |
| HttpqlEval.EvalOrQuery | httpql/eval.go:11-38 | an OR node holds of a flow exactly when one side does |
| LikePattern.ReplacePass | httpql/eval.go:136-141 | each of the four successive replacements changes just its own wildcard, never a quoted character or an earlier replacement |
| LikePattern.ConvertIsTranslate | httpql/eval.go:133-143 | quoting and the four passes together are one translation character by character, for every pattern |
| LikePattern.TranslateParses | httpql/eval.go:133-143 | the resulting expression reads as exactly one item for each character of the pattern |
| LikePattern.ItemsMatchGlob | httpql/eval.go:133-143 | those items match the same texts as the wildcard reading of the pattern |
| LikePattern.LikeMatchesGlob | httpql/eval.go:117-120 | on every text the converted expression matches exactly when the pattern does: `*` and `%` any run, `?` and `_` one character, no line feed, everything else itself |
| LikePattern.PlainExactly | httpql/eval.go:133-143 | `like` is equality exactly for the patterns without any of the four wildcards |
| HttpqlRoundTrip.LexQuoted | httpql/ast.go:92-94 | a printed value is read back as one string token whatever follows it |
| HttpqlQuoting.QuotingKeeps | httpql/ast.go:92-94 | what is printed for a value, its escapes read as Go reads them, is the value |
| HttpqlRoundTrip.RereadValueIs | httpql/lexer.go:60-62 | what a printed value turns into when read: its escapes stay, and a final quote leaves a backslash |
| HttpqlRoundTrip.QuotedValueSurvives | httpql/lexer.go:60-62 | a value survives printing and reading exactly when it is printable without quote and backslash |
| HttpqlRoundTrip.DigitsValueInverse | httpql/ast.go:114-116 | printed numbers are read as the same number |
| HttpqlRoundTrip.ParsePair | httpql/parser.go:76-92 | a parenthesised pair parses to the joined query of its two parts, or fails as its first failing part does |
| HttpqlRoundTrip.FactorRoundTrip | httpql/ast.go:16-30 | at any depth, what parsing the printed form of a query gives, and that it leaves just the text after it: any text, but no letter or digit directly after an int or a bool |
| HttpqlRoundTrip.PrintedQueryParses | httpql/ast.go:16-136 | the same from the top for any such text that does not begin with AND or OR; it fails exactly when a negative int is printed |
| HttpqlRoundTrip.RereadIdentity | httpql/ast.go:16-136 | reading back is the identity on a tree exactly when all its values survive |
| HttpqlRoundTrip.RoundTripExactly | httpql/ast.go:16-136 | for a well-formed query and any such text after it, parsing the printed form gives the same query exactly when its values are plain and its ints not negative |
| HttpqlReading.SplitAtSeparator | httpql/parser.go:37-74 | cutting at a separator outside parentheses cuts a list of units into the cuts of its two sides |
| HttpqlReading.ClauseWindow | httpql/parser.go:94-132 | a clause consumes exactly seven tokens, or the last six of the input, and nothing after them matters |
| HttpqlReading.ClauseReads | httpql/parser.go:94-187 | the parsed clause holds of a flow exactly when what its namespace, field, operator and value, read at positions 0, 2, 4 and 6, say of it does |
| HttpqlReading.BuiltClauseHolds | httpql/parser.go:134-187 | each field of a clause is compared with its own part of the flow, the aliases of the body, the ignored error of a bool and the ports of the schemes included |
| HttpqlReading.FactorReads | httpql/parser.go:76-92 | a factor evaluates to the reading of the tokens it consumed |
| HttpqlReading.AndReads | httpql/parser.go:57-74 | a term evaluates to the reading of its tokens split at the ANDs outside parentheses |
| HttpqlReading.OrReads | httpql/parser.go:37-55 | a query evaluates to the reading of its tokens split first at the ORs outside parentheses, then at the ANDs |
| HttpqlReading.ParsedQueryReads | httpql/parser.go:26-132 | for every text and flow: AND binds tighter than OR, parentheses group, and only the consumed prefix counts |
| Rounding.Float64Order | storage/query_builder.go:149 | the conversion to float64 is exact up to 2^53 and never brings a larger number below it |
| Rounding.Float64Monotone | storage/query_builder.go:149 | it keeps the order of all integers |
| Rounding.Float64Nearest | storage/query_builder.go:149 | the value is the nearest multiple of the smallest power of two with which 53 bits suffice, the even one of two such; negative numbers mirror it |
| BleveQuery.IntQueryDiffersExactly | storage/query_builder.go:148-191 | for every number and every operator, range query and comparison differ exactly when the two numbers differ, round to the same float64, and the operator tells them apart |
| BleveQuery.SmallNeverCollides | storage/query_builder.go:148-191 | a number below 2^53 collides with none |
| BleveDiffers.LargePortsCollide | storage/query_builder.go:148-191 | a URL with port 9007199254740992 is found by a clause on port 9007199254740993 |
| BleveQuery.WildcardIsContains | storage/query_builder.go:115-119 | a value between two asterisks matches a text exactly when it is contained |
| BleveQuery.ContIsExactlyContains | storage/query_builder.go:115-119 | that is so for all texts exactly when the value holds no wildcard character |
| BleveQuery.MethodQueryExact | storage/query_builder.go:85-131 | the compiled method condition hits exactly when the condition holds |
| BleveQuery.RequestClauseExact | storage/query_builder.go:43-67 | the same for a request clause over method and explicit port |
| BleveQuery.ResponseClauseExact | storage/query_builder.go:69-83 | the same for a response clause over code and length |
| BleveQuery.SearchAgreesWithEval | storage/query_builder.go:8-191 | on AND and OR trees of such clauses the compiled query hits the indexed document of a flow exactly when the query holds of the flow |
| BleveDiffers.PortClauseExactly | storage/service.go:239-242 | for every operator and every port text: with a port other than 0 index and evaluator agree exactly when it does not collide; with digits that are too long exactly when the clause does not tell 0 from the largest int, and otherwise exactly when it does not tell 0 from 443 for https, or from 80 |
| BleveDiffers.TlsAloneExactly | storage/query_builder.go:64-66 | a clause on TLS alone agrees with the evaluator exactly on the flows it excludes |
| BleveDiffers.TlsDroppedExactly | storage/query_builder.go:64-66 | beside other fields the condition on TLS is dropped: they agree exactly when the flow meets it or fails the others |
| BleveDiffers.NegatedPatternExactly | storage/query_builder.go:133-146 | a clause with `nlike` or `nregex` on any text field agrees with the evaluator exactly where the pattern does not match |
| BleveDiffers.TextClauseAsks | storage/query_builder.go:43-146 | for each text field and operator, what the library is asked and of which field of the document; that field holds that part of the flow |
| BleveDiffers.ResponseBodyAsks | storage/query_builder.go:69-146 | the same for the response body |
| StoredSearch.Search | storage/service.go:252-324 | the outcome is the error of the index, the error of the first row that can not be read, or the rows of one page of the ranked hits of the compiled query; texts that do not parse are left to the index |
| StoredSearch.PageHolds | storage/service.go:267-280 | a page holds distinct matching flows, ten or all of them; all exactly when at most ten match |
| StoredSearch.PageIsTop | storage/service.go:267-280 | the page is the top of the ranking, in its order: a hit ranked before one on the page is on it before that |
| StoredSearch.AllReturnedExactly | storage/service.go:267-324 | a search fails in reading rows exactly when a hit of the page has an unreadable one; otherwise every matching flow is returned exactly when at most ten match and all of these still have their row |
| StoredSearch.SearchFindsReading | storage/service.go:252-265 | on the supported fragment a flow matches exactly when the reading of the search text holds of it |
| FilterGrammar.MoreFuel | web/client/src/utils/filterRuleParser.js:6-37 | the meaning of a grammar expression does not depend on how far it is unfolded |
| FilterGrammar.DenotesUnique | web/client/src/utils/filterRuleParser.js:6-37 | at every position an expression has at most one outcome |
| FilterSyntax.BinaryDenotes | web/client/src/utils/filterRuleParser.js:358-456 | parsing the left operand once does what the two alternatives that both parse it do |
| FilterSyntax.FactorDenotes | web/client/src/utils/filterRuleParser.js:502-562 | at every position of every text a factor matches, with the rule and the end the grammar denotes |
| FilterSyntax.NotDenotes | web/client/src/utils/filterRuleParser.js:458-500 | the same for negation |
| FilterSyntax.AndDenotes | web/client/src/utils/filterRuleParser.js:408-456 | the same for conjunction |
| FilterSyntax.OrDenotes | web/client/src/utils/filterRuleParser.js:358-406 | the same for disjunction: no rule from Factor upward ever fails |
| FilterSyntax.ParseTextIsGrammar | web/client/src/utils/filterRuleParser.js:742-758 | a text is accepted with a rule exactly when the grammar matches the whole text with that rule |
| FilterParser.Parser.ParseOr | web/client/src/utils/filterRuleParser.js:358-406 | the backtracking parser terminates, leaves position and rule where the parse-once form does, and looks at as many factors as the cost function says |
| FilterParser.Parser.ParseFactor | web/client/src/utils/filterRuleParser.js:502-562 | the same for factors, with the position restored after a failed alternative |
| FilterParser.Parser.ParseKeyword1 | web/client/src/utils/filterRuleParser.js:564-620 | a quoted keyword ends at its quote, or the position is as before |
| FilterParser.Parser.Parse | web/client/src/utils/filterRuleParser.js:742-758 | the whole parser gives exactly the accepted rule, and an error otherwise |
| FilterCost.NestedIsExponential | web/client/src/utils/filterRuleParser.js:358-456 | a keyword between n pairs of parentheses is that keyword, but (4^(n+2) - 4) / 3 factors are looked at to find it, as Or and And both parse a lone left operand again |
| FilterQuotes.BareWordExactly | web/client/src/utils/filterRuleParser.js:458-500 | a word without blanks and parentheses that begins without a quote is one keyword exactly when it does not begin with `not` |
| FilterQuotes.QuotedTailExactly | web/client/src/utils/filterRuleParser.js:564-709 | a keyword that continues with a quoted text is one keyword exactly when that text has no blank and no parenthesis, and the quotes are part of it; otherwise it is refused or read as a conjunction or alternative |
| FilterQuotes.QuotedBlankRefused | web/client/src/utils/filterRuleParser.js:680-758 | with a blank in the quotes, and no connective after it, the whole text is refused |
| FilterQuotes.QuotedOrSplits | web/client/src/utils/filterRuleParser.js:358-406 | with a blank and then `or` in the quotes it is read as two keywords, each with one of the quotes |
| FilterQuotes.DocumentedTextRefused | docs/web-filter-rules_CN.md:83 | the documented text with a blank is refused |
| FilterQuotes.SplitText | web/client/src/utils/filterRuleParser.js:358-406 | a text of that form that is accepted as an alternative |
| FilterQuotes.ScopedQuotesNeverMean | web/client/src/utils/filter.ts:76-104 | for every scope and text, `scope:"text"` is one keyword exactly when the text needs no quotes, and it looks for the text with the quotes; a response body that is the text alone is not found |
| FilterQuotes.WholeQuotesMean | web/client/src/utils/filter.ts:76-104 | with the quotes around scope and text, any text without a double quote is accepted, and looked for if it is trimmed and does not begin with a slash |
| FilterRoundTrip.FactorRendered | web/client/src/utils/filterRuleParser.js:502-562 | a rendered factor is parsed back anywhere in a text |
| FilterRoundTrip.ExprRendered | web/client/src/utils/filterRuleParser.js:358-500 | a parenthesised rendering of any rule tree is parsed back to the tree |
| FilterRoundTrip.RenderedTextParses | web/client/src/utils/filterRuleParser.js:742-758 | every rule tree whose keywords hold no double quote is what its rendering parses to |
| FlowFilter.MeaningIsFormula | web/client/src/utils/filter.ts:45-63 | short-circuit evaluation is the boolean reading of the tree whenever its regular expressions compile |
| FlowFilter.Node.GetKeyword | web/client/src/utils/filter.ts:65-69 | the memo returns the filter its keyword makes, whether it was there or not |
| FlowFilter.MatchNode | web/client/src/utils/filter.ts:45-63 | matching on the tree of objects gives the meaning of the rule whatever memos were written before, and keeps them right |
| FlowFilter.Filter.constructor | web/client/src/utils/filter.ts:34-38 | a filter is made exactly for blank texts and for texts the parser accepts after trimming |
| FlowFilter.Filter.Match | web/client/src/utils/filter.ts:40-43 | every call, first or later, answers what the text means on the flow |
| FilterScopes.TextKeyword | web/client/src/utils/filter.ts:76-191 | for each scope by its name, `scope:text` holds exactly when a text of that scope has the text in it: URL, method in either case, status code, names and values of request or response headers or of both, bodies that are not empty, and for `all` URL, method, headers and bodies |
| FilterScopes.PatternKeyword | web/client/src/utils/filter.ts:76-191 | `scope:/src/` and `scope:/src/i` ask the engine for the trimmed source, without and with ignoring case, and hold exactly when a text of the scope that is not empty matches; they throw where it refuses; a blank source holds where there is a text |
| FilterScopes.LoneSlash | web/client/src/utils/filter.ts:89-98 | a slash alone is such a blank source |
| FilterScopes.EmptyKeyword | web/client/src/utils/filter.ts:76-87 | a scope without a text holds of the flows that have a text of the scope |
| FilterScopes.UnscopedKeyword | web/client/src/utils/filter.ts:74-104 | a text without a scope is looked for in the URL |
| FilterScopes.QuotedFilterShows | web/client/src/utils/filter.ts:17-70 | the quoted keyword as a filter shows exactly those flows |
| FilterScopes.BlankShowsAll | web/client/src/utils/filter.ts:17-70 | a blank filter shows every flow |
| FilterScopes.TrimMeans | web/client/src/utils/filter.ts:77 | trimming takes away just the white space at both ends |
| FilterScopes.LeftFirst | web/client/src/utils/filter.ts:30-70 | an operand that throws ends the evaluation, and one that decides spares the other |
| FilterMeaning.RenderedTextMeans | web/client/src/utils/filter.ts:34-63 | rendered, trimmed, parsed and matched, every rule tree whose keywords hold no double quote and build means its own boolean formula |
| FilterMeaning.ShowRendered | web/client/src/utils/flow.ts:310-313 | the filter object answers that formula for one flow after the other |
| TextCut.SplitJoin | web/client/src/containers/EditFlow.tsx:35-38 | splitting what was joined gives back the pieces exactly when no piece contains the separator or makes one across a join |
| TextCut.JoinSplit | web/client/src/containers/EditFlow.tsx:35-38 | joining what was split gives back the text |
| TextCut.FirstTwoExact | web/client/src/containers/EditFlow.tsx:28-37 | destructuring the first two pieces recovers both parts exactly when they are non-empty and free of the separator |
| EditText.ReadHeader | web/client/src/containers/EditFlow.tsx:34-39 | the loop over the header lines builds the dictionary of all of them but `__proto__`, or gives up where one line does |
| EditText.HeadersExact | web/client/src/containers/EditFlow.tsx:12-39 | header lines are read back as the same dictionary exactly when there is a header and keys and values are clean; a key `__proto__` never is |
| EditText.HeaderBlock | web/client/src/containers/EditFlow.tsx:10-41 | the two blank lines are found where they were put, and the body is what follows |
| EditText.RequestRoundTrip | web/client/src/containers/EditFlow.tsx:10-52 | parsing a printed request recovers method, url, headers and body text exactly for clean requests |
| EditText.ResponseRoundTrip | web/client/src/containers/EditFlow.tsx:54-94 | the same for responses and their status code |
| EditText.RequestLayout | web/client/src/containers/EditFlow.tsx:10-21 | the text of a request: method, blank, URL, a blank line, the header lines, a blank line, the body |
| EditText.ResponseLayout | web/client/src/containers/EditFlow.tsx:54-65 | the same with the status code in decimal first |
| EditText.FieldLayout | web/client/src/containers/EditFlow.tsx:12-15 | a header line is the key, a colon and the values, separated by tabs between blanks |
| EditText.ParsedRequestShows | web/client/src/containers/EditFlow.tsx:23-52 | whatever is accepted as a request begins with its method and URL and ends with its body |
| TlsDial.RunKeepsInv | proxy/attacker.go:323-415 | the invariant of the two goroutines and five channels holds after every interleaving |
| TlsDial.NoDeadlock | proxy/attacker.go:323-415 | in every reachable state some step is possible until both goroutines are done, every step makes progress, and then none is left |
| TlsDial.RunsAreShort | proxy/attacker.go:323-415 | no run has more than thirteen steps |
| TlsDial.OfferFollowsServer | proxy/attacker.go:344-371 | a client configuration exists only after the server handshake succeeded, and offers exactly its negotiated protocol |
| TlsDial.FinishedOutcome | proxy/attacker.go:384-414 | at the end the two flags of success decide whether the connection was served, and otherwise both connections are closed |
| TlsDial.ServedExactly | proxy/attacker.go:323-415 | a finished run has served the connection exactly when one of its steps was a successful server handshake and one a successful client handshake, and exactly when none was a failure, of the certificate either; otherwise just then both connections were closed |
| TlsDial.OfferIsNegotiated | proxy/attacker.go:344-371 | in every run the client is offered exactly the protocol of the run's successful server handshake, none when that is empty, and nothing without one |
| TlsDial.CanFinish | proxy/attacker.go:323-415 | every run can be continued to an end without a leaked goroutine |
| Transfer.RunKeepsInv | proxy/helper.go:43-117 | the invariant of the two copiers and their receiver holds after every interleaving |
| Transfer.NoGoroutineStuck | proxy/helper.go:43-117 | there is always a step that does not need the timeout, and a copier that comes too late finds `done` closed |
| Transfer.BothDelivered | proxy/helper.go:62-67 | when both copiers are gone, the receiver is not waiting for them |
| Transfer.ReturnMeans | proxy/helper.go:104-116 | at most two results are received; a clean return means both directions ended without error and both sides are closed, a failure that one ended with an error |
| Transfer.ReturnsExactly | proxy/helper.go:43-117 | a run returns cleanly exactly when both copies ended without error, closed their targets and were received, for a failure exactly when a copy that ended with an error was received, and for the timeout exactly when it ran out |
| ConnClose.ConnContext.CloseClientConn | proxy/entry.go:70-92 | the recursive client close terminates and has the effect of the closing function on all connections; it returns the stored error |
| ConnClose.ConnContext.CloseServerConn | proxy/entry.go:105-131 | the same for the server close |
| ConnClose.CloseClientExactly | proxy/entry.go:70-92 | all that closing the client changes: nothing when it was closed; else its flag, error, counts and hooks, then the same for an open server that is attached, and the read side of a plain client |
| ConnClose.CloseServerExactly | proxy/entry.go:105-131 | all that closing the server changes: the client is closed with it exactly on TLS when the response was not to end the connection, and otherwise stays as it is, but that the read side of a plain one is shut |
| ConnClose.CloseClientOnce | proxy/entry.go:70-92 | closing keeps everything closed at most once and told at most once, and the server is closed after it exactly when it was or is attached to a client that was open |
| ConnClose.CloseServerOnce | proxy/entry.go:105-131 | the same from the server side, with the exact condition for the client |
| ConnClose.CloseTwice | proxy/entry.go:70-131 | a second close changes nothing |
| ConnClose.RunsCloseOnce | proxy/entry.go:70-131 | over any sequence of attaching and closing, every connection, channel and hook is used at most once |
| ConnClose.ReadSideShutExactly | proxy/entry.go:121-122 | over any sequence of calls the read side of the client is shut once exactly when the server was closed while the client was plain, and else never |
| CloseRace.RunKeepsInv | proxy/entry.go:70-131 | the invariant holds for any number of goroutines in Close at any point |
| CloseRace.EverythingOnce | proxy/entry.go:70-131 | in every interleaving each connection and the channel are closed at most once, each addon told at most once and in order, and every returned error is the stored one; once a winning call has returned its connection and the client's channel are closed and every addon has been told; a client close that won and then saw a server returns with it closed |
| CloseRace.ErrorsAreResults | proxy/entry.go:70-131 | in every interleaving the stored error of a side is what the underlying Close returned in the step that closed it |
| CloseReturn.ClosedAtReturnExactly | proxy/entry.go:70-92 | in every continuation the server is closed when a client close returns, exactly if, when the call takes the lock, it is closed already or it is attached and the client connection open |
| CloseReturn.AttachedIsClosedExactly | proxy/entry.go:70-92 | no attached server is left open at the return exactly if, at the lock, the server is closed or just one holds: it is attached, the client connection is closed |
| CloseReturn.UnlockedExactly | proxy/entry.go:70-92 | before the call has the lock only a closed server is sure to be closed at the return |
| CloseReturn.LoserReturnsAtOnce | proxy/entry.go:72-75 | a call that finds the connection closed returns at once with the server as it is |
| CloseReturn.WinnerMissesServer | proxy/entry.go:83-91 | a call that wins before a server is attached can return with the server attached and open |
| CloseReturn.GoingBackCloses | proxy/entry.go:121-128 | a server close that goes on to the client has the client closed when its goroutine is done, whatever else runs; one that does not goes straight to its return with everything as it was |
| CloseRace.MoveLowersWork | proxy/entry.go:70-131 | every move lowers the remaining work, so every call returns |
| BodyBuffer.ReaderToBuffer | internal/helper/helper.go:30-47 | for any pattern of short reads, with a failure after the last bytes or together with them: below the limit the body is in memory, from the limit on its first part is and the rest unread; a failure is reported below the limit, and at it when it comes with the last byte |
| BodyBuffer.BufferExactly | internal/helper/helper.go:30-47 | which bodies give an error, which are cut at the limit and which are in memory, each exactly, and with which bytes |
| BodyBuffer.BufferConserves | internal/helper/helper.go:30-47 | the answer delivers the body's bytes exactly when the limit is not negative or there are none |
| Pipeline.Exchange.Reply | proxy/attacker.go:617-651 | from the point where a reply begins, header and bodies are written as the machine says; it panics exactly at a code that is none |
| Pipeline.Exchange.RequestPhase | proxy/attacker.go:485-512 | from reading the body on: either the machine is where the modifiers begin, with the body the code then holds, or the exchange has ended with its reply written or with the panic of the machine |
| Pipeline.Exchange.UpstreamPhase | proxy/attacker.go:518-564 | the same for the dial and the exchange: they go on with the server's answer, or end with the error reply or the panic of the machine |
| Pipeline.Exchange.ResponsePhase | proxy/attacker.go:588-609 | the same for reading the response body and its hooks |
| Pipeline.Exchange.Attack | proxy/attacker.go:450-615 | for any addons and network the log is the one whole run of the exchange machine, ended by Finish, and attack panics exactly where the machine does; the connection is to be closed after the response exactly when it was before or the server's answer says so |
| ExchangeRun.OneRun | proxy/attacker.go:450-615 | what addons and network answer determines the run: of two runs the shorter begins the longer |
| ExchangeRules.RunsExactly | proxy/attacker.go:450-651 | a log is what happens exactly when each of its events follows, by rules that name no machine, from the events before it: whose turn it is, the flow and the reader as last left, body by body and modifier by modifier, when a body is read or fails, when and where the request goes, and each reply with its cause |
| ExchangeRules.WholeExactly | proxy/attacker.go:450-651 | such a log is a whole exchange exactly when it ends with Finish, and attack panicked in it exactly when there was one of the causes or the last header's code is none |
| ExchangeRules.SentIsLastGiven | proxy/attacker.go:514-558 | the server is sent just the reader that the last request modifier gave, dialled or not, and without addons the body as it was read, and the flow is as that left it |
| ExchangeOrder.RunIsOrdered | proxy/attacker.go:475-651 | in every run phases never go back, and each body is read, the server dialled and asked, the header written and the flow finished at most once |
| ExchangeCalls.RunIsThreaded | proxy/attacker.go:475-614 | each addon is called in its turn on what the one before left; the first Requestheaders hook sees the flow as made, the first Responseheaders hook the answer's code without a body, the first body hook the unstreamed flow; the code written is that of the response that was left |
| ExchangePlan.CallsFollowPlan | proxy/attacker.go:475-613 | in every run, also an unfinished one, the calls of addons are a first part of the plan: row by row, each addon once |
| ExchangePlan.WholePlanCalled | proxy/attacker.go:475-613 | a finished exchange that read the response body and has no cause for a panic has made all calls of the plan |
| ExchangePlan.BodiesDecideHooks | proxy/attacker.go:485-609 | a body that is read is streamed exactly when the flow says so or it reaches the limit; Request and Response hooks are called only for bodies below the limit, the first of them on an unstreamed flow |
| ExchangePlan.AnsweredStaysHome | proxy/attacker.go:477-509 | after an addon answered the server is neither dialled nor asked |
| ExchangeEnds.CrashedExactly | proxy/attacker.go:450-615 | attack panics before a reply exactly when an addon panics, removes the response after a Responseheaders hook or before the reply, or there is neither a server connection nor a dial for the shared client |
| ExchangeEnds.EndsExactly | proxy/attacker.go:450-651 | a finished exchange finishes its flow once, last; it writes one header exactly when it has none of these causes and none otherwise; attack panics exactly with one of them or when the header's code is none |
| ExchangeEnds.ReplyIsLastLeft | proxy/attacker.go:479-651 | the header written after an addon's answer or the last response modifier has the code of the response left there, and the bytes written in the whole exchange are those of that response and reader, in order |
| ExchangeQuiet.TameIsDone | proxy/attacker.go:450-615 | with addons that never panic, keep the response and set valid codes, and a server to ask, attack returns with exactly one header written, whatever else fails |
| ExchangeQuiet.QuietCarries | proxy/attacker.go:450-615 | with addons that change nothing and a body that arrives, the server is asked once with the client's body; if its body arrives the client gets its code and body, and all addons are called, body hooks only below the limit; a negative limit loses both bodies |
| WireFrames.Uint32Inverse | web/message.go:28-29 | a length is written in big-endian order modulo 2^32 |
| WireFrames.UuidInverse | web/message.go:160 | the 36 bytes of an id are read back as the id |
| WireProtocol.EditBytes | web/message.go:243-254 | the Go encoder appends exactly the frame of the edit |
| WireProtocol.BuildChange | web/client/src/utils/message.ts:111-125 | writing at offsets into a preallocated array gives the same frame, every byte set |
| WireProtocol.BuildDrop | web/client/src/utils/message.ts:85-91 | the same for the short drop frame |
| WireProtocol.EditHeaderEffect | web/client/src/utils/message.ts:107-109 | after the header edits the length is the given one, both encodings are gone in either spelling, and nothing else has changed |
| WireProtocol.ChangeSplitsExactly | web/message.go:198-215 | header and body are cut out of a frame as they were put in exactly when both are shorter than 2^32 bytes |
| WireProtocol.ChangeRoundTrip | web/message.go:173-254 | a change frame of either encoder is parsed in Go as the message it was made from, exactly under that condition |
| WireProtocol.DropRoundTrip | web/message.go:193-195 | a drop frame of either encoder is parsed as the drop of that flow |
| WireProtocol.AcceptedChangeIsFrame | web/message.go:198-215 | whatever bytes arrive, an accepted change adds up to 46 plus both lengths and is the frame of its parts |
| WireProtocol.ChangeFrameInjective | web/message.go:198-215 | and no other parts have that frame |
| WireProtocol.FlowBytes | web/message.go:158-164 | the Go encoder of flow messages appends exactly their frame |
| WireProtocol.FlowRoundTrip | web/client/src/utils/message.ts:35-71 | every flow message of Go is parsed in TypeScript with the same type, id, wait mark and content |
| WireLayout.BigEndian | web/message.go:28-29 | the four bytes of a length, most significant first |
| WireLayout.UuidTextAt | web/message.go:160 | each byte of an id is two lower-case hexadecimal digits at its place, and where the dashes are |
| WireLayout.EditLayout | web/message.go:243-254 | what stands at each offset of an edit frame, the version and type as numbers |
| WireLayout.AcceptedByType | web/message.go:287-312 | what an accepted message is, by its type as a number, and of which flow |
| WireProtocol.RulesBytes | web/message.go:275-286 | the Go encoder of break-point rules gives exactly their frame |
| WireProtocol.BuildRules | web/client/src/utils/message.ts:131-143 | so does the TypeScript one |
| WireLayout.RulesRoundTrip | web/message.go:261-272 | a frame of rules is version, type 21 and the JSON, and is read as the rules it was made from |
| WireLayout.FlowLayout | web/message.go:158-164 | what stands at each offset of a flow message |
| WireLayout.AcceptedFlowByType | web/client/src/utils/message.ts:35-71 | what the client accepts, by version, type and length, and the content it reads; the one case in which reading runs past the end |
| UiEdits.Apply | web/conn.go:183-206 | an edit keeps the flow's id and the part it does not name; a change replaces request or response, a drop leaves a bare 502; nil is dereferenced exactly when a missing response is changed |
| UiEdits.Conn.InitWaitChan | web/conn.go:135-145 | a channel is made for an id the first time and returned afterwards |
| UiEdits.Conn.ReadOne | web/conn.go:103-133 | an edit goes to a goroutine at the channel of its id, rules are stored, anything else is skipped; nil rules end the loop |
| UiEdits.Conn.WaitIntercept | web/conn.go:187-205 | overwriting the fields one by one has the effect of the edit on the flow |
| UiEdits.RunKeepsInv | web/conn.go:103-206 | every edit and every wait is at its own channel or has ended in one meeting, over every run |
| UiEdits.ChannelForEver | web/conn.go:135-145 | over every continuation an id keeps its channel and no other id gets it |
| UiEdits.EditReachesOneWait | web/conn.go:122-126 | an edit reaches only a wait of its own flow, at most once, and each wait ends with one edit |
| UiEdits.EditsConserved | web/conn.go:103-206 | for every id, received edits are the consumed and the pending ones, and as many waits ended as edits were consumed |
| UiEdits.RecordsAreSteps | web/conn.go:103-206 | what was received, waited for and brought together is what the steps of the run say, in order |
| UiEdits.MeetExactlyOwn | web/conn.go:183-185 | a pending edit and a waiting flow can meet exactly when they are of the same flow |
| UiEdits.OrderIsIrrelevant | web/conn.go:122-126 | whether edit or wait comes first, the connection is in the same state |
| UiMessages.OpenMeans | web/conn.go:39-72 | the last note says what the search for an announcement without a later end says |
| UiMessages.NextNote | web/conn.go:43-47 | announcements stay separated by ends exactly when an announced connection is not announced again |
| UiMessages.Announcer.TrySendConnMessage | web/conn.go:39-58 | announced once until its end is reported, even if sending failed |
| UiMessages.Announcer.WhenConnClose | web/conn.go:60-72 | the end is reported and the connection may be announced again |
| UiMessages.SendFlowMayWait | web/web.go:137-154 | over the connections that the loop visits: nothing is sent when the message cannot be made; else a connection gets it marked, and the flow waits there, when it or any visited before it intercepts |
| UiMessages.IsIntercept | web/conn.go:147-180 | a flow is stopped at exactly when a rule with a URL that its URL contains, its method or none, and the bit for requests or responses says so, and only with a body |
| UiMessages.WaitsWhereIntercepted | web/conn.go:74-90 | a flow waits just where it is intercepted exactly when no indifferent connection comes after an intercepting one |
| ConnSlice.WebConns.RemoveConn | web/web.go:106-122 | the first slot with the connection goes, the later ones move down one place in the same array, and the last keeps its copy; without it nothing changes |
| ConnSlice.VisitedExactly | web/web.go:106-135 | over any run of a loop's visits and of removals, a connection that stays is visited by the loop exactly when no removal moved it, as the next and not the last, behind the loop |
| ConnSlice.OneRemovalExactly | web/web.go:106-154 | with one removal during a loop each connection is visited once exactly when the loop was at most one visit from its end or the last was removed; else the last is visited twice, and the next is left out if the removed one had been visited |
| UiProgress.RunKeepsInv | web/web.go:156-269 | the invariant of stored state and loop variables holds over every interleaving of flows, break points included |
| UiProgress.TypesInOrder | web/web.go:251-269 | between calls the types of a flow are exactly 1 up to the largest asked for, ascending, without gap or repeat, and that is the stored state; within a call they are a prefix |
| UiProgress.TurnsFollowSteps | web/web.go:232-269 | the turns are those of the run's steps with what they found, and the types of a flow's loops count its sends |
| UiProgress.StoredExactly | web/web.go:156-169 | a state is stored for a flow from its registration until it is deleted |
| UiProgress.AskedIsLargest | web/web.go:251-258 | the bound is the largest type of the calls made |
| UiProgress.MadeExactly | web/web.go:232-249 | all types whose turn came are made exactly when every turn found a connection and could be built |
| UiProgress.FinishedFlowMakes | web/message.go:105-146 | a finished flow seen with the same contents at every connected turn makes all four types exactly when both bodies decode and there is a response, and without a response just those of types 1 and 2 that can be built |
| UiProgress.RunKeepsStops | web/web.go:177-207 | each type has its turn at most once in the loops and at most once at a break point, and there first |
| UiProgress.SentTwiceExactly | web/web.go:177-269 | no type is sent more than twice about a flow, and twice exactly when it was sent at a break point and a later turn of a loop made it too |
| UiProgress.WebAddon.SendFlowMayWait | web/web.go:137-154 | a send at a break point does not touch the stored state |
| UiProgress.WebAddon.SendMessageUntil | web/web.go:251-269 | the loop is one run of those steps and ends with the types up to the one asked for |
| FlowList.AddAgreesExactly | web/client/src/utils/flow.ts:315-324 | list and index stay in agreement exactly when the added id is new |
| FlowList.ListIsNewest | web/client/src/utils/flow.ts:315-324 | over any run the list is the newest thousand flows since the last clear, in order: the oldest is evicted |
| FlowList.IndexAgrees | web/client/src/utils/flow.ts:315-350 | over any run of new ids and clears the map is the index of the list and numbers grow along it |
| FlowList.FlowManager.Add | web/client/src/utils/flow.ts:315-324 | push, numbering, map entry and eviction on the objects have the effect of the abstract step, for a new object under any id |
| FlowList.FlowManager.Get | web/client/src/utils/flow.ts:326-328 | a flow is found exactly when its id is in the index, and shows the entry there; while list and index agree that is exactly when it is listed, and the listed object is found |
| FlowList.FlowManager.Clear | web/client/src/utils/flow.ts:347-350 | list and index are emptied, the counter goes on |

## Left out

- Unicode classes of letters and printable characters above ASCII are a parameter of lexer and printer; text is a sequence of characters, so invalid UTF-8 is not modelled.
- The scanner is modelled for the token kinds the lexer switches on; its error reports go nowhere in the source and are not modelled.
- Query trees are values; sharing and later mutation of query objects is not modelled.
- BleveQuery.SearchAgreesWithEval: not stated for host, path, query and bodies, which the index analyses into words and the evaluator does not; nor for the index's own anchoring of regular expressions.
- StoredSearch.Search: the ranking is a parameter, an order of all flows, and so is which queries the index refuses; the fields read from a row and the index's own query language are not modelled.
- Regular expressions outside the anchored fragment that `like` produces are an arbitrary engine.
- Error positions and messages of the generated filter parser, its line cache and its unused options.
- FlowFilter.Filter.Match: the decoded bodies that `requestBody()` and `responseBody()` give are part of the flow, and the caching of them is not modelled.
- TLS records, certificates, sockets and dials are outcomes that may be anything; a panic inside an addon's hook during the server handshake is not modelled, and fingerprints are left out.
- Transfer.ReturnMeans: a copier's read and write are one event that ends cleanly or not; bytes are not modelled there.
- CloseRace.EverythingOnce: goroutines of Close share the `Tls` and `closeAfterResponse` flags, which other code may set meanwhile; the model takes any value at the point of use.
- ConnSlice.VisitedExactly: connections that join during a loop, which can overwrite a slot behind the others, are not modelled.
- UiMessages.SendFlowMayWait: which connections the loop visits while others leave is the subject of ConnSlice, and when a connection's rules intercept that of IsIntercept.
- Pipeline.Exchange.Attack: headers, trailers and the text of the URL are left out; the HTTP library's connection handling after the reply is too.
- A write to the client that fails is logged and ignored by the source; the model counts the bytes as written.
- JSON is a pair of functions, required to invert each other on the message at hand only; header dictionaries are maps, without order.
- WireProtocol.FlowRoundTrip: not stated for an empty JSON content, which the TypeScript parser does not distinguish from none.
- The two locks of a UI connection are taken for one map access or one write each; those are single steps in the model.
- UiProgress.TypesInOrder: calls for one flow do not overlap in the model, as the hooks of a flow come one after the other and the goroutine that waits for its end calls last.
- The filter timer of the flow list, and React state around it.
- Config merging, logging, dumping, map-local and map-remote rules, PII and technology scanning, WebSocket relay and content decoders are not part of this model.
