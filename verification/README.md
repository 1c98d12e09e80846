# ABNF grammars: scanner, parser, converter and matcher

This project models the core of abnf.net, a library that reads a grammar
written in ABNF (RFC 5234), compiles it into a tree of patterns and checks
input strings against a start rule of that grammar. The pipeline has four stages.

1. **Scan.** `Scanner.Scan` turns the grammar text into tokens, each with a
   line and a column. The tokens are rule names, `=`, `/`, repeat prefixes
   such as `1*3`, quoted strings, `%x` values and ranges, brackets, line
   breaks, blanks and comments.
2. **Parse.** `Parser` is a recursive-descent parser over a `TokenStream`.
   It builds an AST: a rule list of alternations, concatenations,
   repetitions, groups, options, references and literals. A rule may span
   several lines. A new rule starts only where a line break is followed by
   `name =`.
3. **Convert.** `AstToGrammarConverter` turns the AST into `GrammarRule`
   patterns: terminals, character ranges, character values, rule
   references, sequences, alternations and repetitions. It decodes the
   `%b`/`%d`/`%x` notation with 32-bit integer parsing.
4. **Match.** `Pattern.Match` matches the input with ordered choice:
   alternatives are tried in order and the first success is kept, and
   repetitions are greedy. Neither is revisited. The `GrammarContext` threaded through it holds the rule table,
   which ignores case, and a stack of (rule, position) pairs used to
   refuse left recursion. `Grammar.Validate` reports success, or the
   furthest failure with its message. `ValidationResult` turns an offset
   into a line and a column. `SExpressionSerializer` prints a compiled
   grammar as an S-expression.

Every stage is a pure Dafny function over immutable datatypes. Exceptions
become `Result` errors carrying the same message. The stages are connected
end to end: `NumberText` scans, parses, compiles and validates the grammar
text `number = 1*DIGIT` / `DIGIT = %x30-39`. `ArithmeticExamples` proves
that the compiled arithmetic grammar accepts exactly the strings read by
an independent recursive recogniser.

Behaviour worth noting:

- **Unmatched characters.** A character that no token pattern matches
  is skipped by the scanner's regular expression and yields no token
  (`ScannerLaws.ScanDropsUnknown`). The only other-symbol character the
  regular expression names is `-`.
- **Duplicate rule names.** `ToDictionary` throws on a duplicate key,
  ignoring case, and the model returns an error (`Contexts.RepeatedKey`,
  `Grammars.NewGrammar`, `Converter.ToGrammar`).
- **Zero-width repetitions.** A repetition compares an iteration's end
  with the position where the whole repetition started, not where the
  iteration started (GrammarRule.cs line 296). So once one iteration has
  made progress, a later zero-width iteration is counted and the loop
  goes on up to its maximum. `GrammarExamples.ZeroWidthAfterProgress`
  shows `0*3("a" / "")` on `"a"` ending with a count of 3, so the
  positions a repetition passes through need not strictly increase.
  `MatcherLaws.RepeatLoopChain` states what does hold.
- **Left recursion.** For `r = r "x" / "y"` the recursion check only cuts
  the recursive branch, and the second alternative still matches. So
  `"y"` is accepted, and so is `"yx"`, through the outer rule's sequence
  (`GrammarExamples.LeftRecursionAcceptsY`, `LeftRecursionAcceptsYX`).
  `"x"` is refused with the left-recursion message.
- **Star.** The token kinds include `Star`, but the repeat pattern comes
  first in the regular expression and matches every `*`. So `Star` is
  never produced (`ScannerLaws.StarIsRepeat`).
- **Explicit end of input.** A line break followed by an explicit
  `EndOfInput` token, not by the end of the token array, is no rule
  boundary. It is skipped as a continuation line
  (`TokenStreamLaws.ExplicitEndIsNoBoundary`).

## Model

| member | source | states |
|---|---|---|
| Text.EqualsIgnoreCasePointwise | src/abnf.net/Grammar/GrammarContext.cs:13 | two names are equal ignoring case iff they have the same length and agree position by position after folding |
| Text.Split | src/abnf.net/Parsing/Token.cs:63 | `Split` yields at least one part and no part holds the separator |
| Text.JoinSplit | src/abnf.net/Parsing/AstToGrammarConverter.cs:102 | joining the parts of a split with the separator gives back the original text |
| Text.SplitJoin | src/abnf.net/Parsing/AstToGrammarConverter.cs:116 | splitting a join of separator-free parts gives back exactly those parts |
| Text.ParseDigits | src/abnf.net/Parsing/AstToGrammarConverter.cs:123 | a digit string is read in a base iff it is non-empty and every character is a digit of that base |
| Text.DigitsRoundTrip | src/abnf.net/Parsing/AstToGrammarConverter.cs:123 | writing a natural in a base and reading it back gives the same number |
| Text.Hex2 | src/abnf.net/Grammar/SExpressionSerializer.cs:112 | the `X2` format of a code never has fewer than two digits |
| Numbers.ToInt32 | src/abnf.net/Parsing/AstToGrammarConverter.cs:108-123 | `Convert.ToInt32(s, base)` succeeds iff `s` is a digit string whose value fits 32 bits: at most `int.MaxValue` in base 10, at most `0xFFFFFFFF` in bases 2 and 16; the result agrees with the digits' value modulo 2^32, so a 32-bit pattern with the top bit set reads as a negative number |
| Numbers.HexInt32RoundTrip | src/abnf.net/Parsing/AstToGrammarConverter.cs:108-123 | every 32-bit integer printed in hexadecimal, two's complement for negatives, reads back to itself |
| Numbers.ParseHexInt32 | src/abnf.net/Parsing/Token.cs:39 | `int.Parse(…, HexNumber)` accepts at most 32 bits of hexadecimal and reads them as a two's-complement integer |
| Tokens.Unquote | src/abnf.net/Parsing/Token.cs:21-27 | a value of at least two characters that starts with a quote loses its first and last character; any other value is returned unchanged |
| Tokens.DecodeSegments | src/abnf.net/Parsing/Token.cs:33-42 | the segments decode iff each is non-empty hexadecimal within 32 bits, to one character per segment in order; otherwise the error is the first bad segment's, "Empty byte in percent notation" for an empty one |
| Tokens.GetStringValue | src/abnf.net/Parsing/Token.cs:19-50 | quoted kinds give the unquoted text; a `%x` value gives one character per dotted segment and any other base is refused as not supported; a range gives its raw text; every other kind is an invalid-operation error naming the kind |
| Tokens.BoundOf | src/abnf.net/Parsing/Token.cs:64-65 | an empty bound text is absent; otherwise the bound is present iff its text parses as a 32-bit decimal, and then it is that value |
| Tokens.GetRepetitionBounds | src/abnf.net/Parsing/Token.cs:58-67 | only a repeat token has bounds; the minimum comes from the text before `*` and the maximum from the text after it, and either one failing to parse fails the whole |
| TokenLaws.UnquoteRoundTrip | src/abnf.net/Parsing/Token.cs:24-26 | wrapping text in quotes and unquoting gives the text back |
| TokenLaws.CharValRoundTrip | src/abnf.net/Parsing/Token.cs:21-27 | the value of a quoted token is the text between its quotes, for either quote kind |
| TokenLaws.PercentRoundTrip | src/abnf.net/Parsing/Token.cs:28-43 | a `%x` token written from a list of codes decodes to one character per code, each the 16-bit `(char)` conversion of its code |
| TokenLaws.CrLfDecodes | src/abnf.net/Parsing/Token.cs:28-43 | `%x0D.0A` decodes to a carriage return followed by a line feed |
| TokenLaws.DecimalPercentRefused | src/abnf.net/Parsing/Token.cs:31-32 | a `%d` value token is refused as not supported |
| TokenLaws.EmptySegmentRefused | src/abnf.net/Parsing/Token.cs:37-39 | a `%x` token with an empty segment between two dots is refused |
| TokenLaws.RepeatRoundTrip | src/abnf.net/Parsing/Token.cs:58-67 | a repeat prefix written from optional bounds reads back to the same bounds |
| TokenLaws.RepeatExamples | src/abnf.net/Parsing/Token.cs:58-67 | `*` has no bounds, `1*` has only a minimum, `*5` has only a maximum and `1*3` has both |
| TokenLaws.BoundsOnlyForRepeat | src/abnf.net/Parsing/Token.cs:60-61 | asking any other kind of token for bounds is an invalid-operation error naming its kind |
| Scanning.RecogniseIsFirstMatch | src/abnf.net/Parsing/Scanner.cs:7 | the token recognised at a position comes from the first alternative, in the regular expression's order, that matches there; none is recognised iff no alternative matches |
| Scanning.FirstMatchGivesToken | src/abnf.net/Parsing/Scanner.cs:7 | when an alternative matches and none before it does, its kind and length are the token recognised |
| Scanning.Matches | src/abnf.net/Parsing/Scanner.cs:14-15 | the lexer's matcher gives, at every position, what the alternatives recognise there |
| Scanning.ScanEmits | src/abnf.net/Parsing/Scanner.cs:17-38 | a match is emitted with its text at the current line and column, and scanning resumes after it at the line and column that text reaches |
| Scanning.ScanSkips | src/abnf.net/Parsing/Scanner.cs:40 | a position where nothing matches is skipped without moving the line or column |
| Scanning.ScanAtEnd | src/abnf.net/Parsing/Scanner.cs:42 | at the end of the input only the `EndOfInput` token is produced, at the current line and column |
| Scanning.AdvanceConcat | src/abnf.net/Parsing/Scanner.cs:26-37 | moving the line and column over two texts in turn is the same as moving over their concatenation |
| Scanning.AdvanceOver | src/abnf.net/Parsing/Scanner.cs:26-37 | the character loop ends at the line and column of the reference `Advance`: a line feed starts a new line, and every other character adds a column |
| ScannerLaws.ScanStep | src/abnf.net/Parsing/Scanner.cs:15-41 | one turn of the scan loop either emits the match and skips its text, or passes one character, exactly as the reference scan does |
| ScannerLaws.ScanTokens | src/abnf.net/Parsing/Scanner.cs:10-43 | the imperative scan loop produces exactly the tokens of the reference `Scan` |
| ScannerLaws.ScanShaped | src/abnf.net/Parsing/Scanner.cs:7 | every token has the form its kind's pattern describes, and the list ends with `EndOfInput` |
| ScannerLaws.ScanPositions | src/abnf.net/Parsing/Scanner.cs:24-37 | each token after the first starts at the line and column the previous token's text leads to |
| ScannerLaws.ScanEnds | src/abnf.net/Parsing/Scanner.cs:12-42 | the first token is at line 1, column 1; the last is `EndOfInput` at the line and column reached over the whole input; no earlier token is `EndOfInput` or `Star` |
| ScannerLaws.RepeatWins | src/abnf.net/Parsing/Scanner.cs:7 | digits followed by `*` and digits are one repeat token, never an integer |
| ScannerLaws.StarIsRepeat | src/abnf.net/Parsing/Scanner.cs:7 | wherever the `Star` alternative would match, the earlier repeat alternative matches too, so `Star` is never produced |
| ScannerLaws.IntegerWholeRun | src/abnf.net/Parsing/Scanner.cs:7 | a digit run not followed by `*` is one integer token covering the whole run |
| ScannerLaws.LetterStartsName | src/abnf.net/Parsing/Scanner.cs:7 | a letter starts a rule name that takes every following letter, digit and `-` |
| ScannerLaws.RangeBeforeNumber | src/abnf.net/Parsing/Scanner.cs:7 | `%x` digits, `-` and digits form a value-range token, never a number value |
| ScannerLaws.NumberWhenNoRange | src/abnf.net/Parsing/Scanner.cs:7 | `%x` digits not followed by a range form a number-value token, dot groups included |
| ScannerLaws.ScanRepeatPrefix | src/abnf.net/Parsing/Scanner.cs:10-43 | `1*` scans as one repeat token at column 1 followed by the end of input at column 3 |
| ScannerLaws.ScanDropsUnknown | src/abnf.net/Parsing/Scanner.cs:14-41 | `#` matches no pattern, so the scan of `"#"` is only the end-of-input token at line 1, column 1 |
| ScannerLaws.ScanLoneCarriageReturn | src/abnf.net/Parsing/Scanner.cs:7 | a carriage return on its own is a line-break token but does not start a new line: the end of input follows at line 1, column 2 |
| TokenStreams.MoveNext | src/bnf.net/Parsing/TokenStream.cs:35-39 | moving forward keeps the tokens and advances by one, except at the end where nothing changes |
| TokenStreams.Expect | src/bnf.net/Parsing/TokenStream.cs:64-72 | `Expect` succeeds iff the current token has the expected kind, and then returns it and moves past it; otherwise it is a syntax error at that token's line and column |
| TokenStreams.SkipTrivia | src/bnf.net/Parsing/TokenStream.cs:77-81 | only whitespace and comments are passed over, and the cursor stops on the first token that is neither |
| TokenStreams.SkipContinuationLines | src/bnf.net/Parsing/TokenStream.cs:157-164 | only line breaks and trivia are passed over, and the cursor stops either off a line break or on a line break that is a rule boundary |
| TokenStreams.ContinuedOver | src/bnf.net/Parsing/TokenStream.cs:159-163 | a line break, its trailing trivia and further skippable tokens together are skippable |
| TokenStreamLaws.PeekIsLookahead | src/bnf.net/Parsing/TokenStream.cs:46-50 | peeking ahead by an offset gives the current token of the stream moved on that many times, so past the array it is the end-of-input token |
| TokenStreamLaws.PeekBehind | src/bnf.net/Parsing/TokenStream.cs:46-50 | a backward peek is an error iff it reaches before the first token; otherwise it is the token that many places back |
| TokenStreamLaws.ExpectConsumesOne | src/bnf.net/Parsing/TokenStream.cs:64-72 | a successful `Expect` moves the cursor by exactly one token, except for an expected end of input at the end, which stays put |
| TokenStreamLaws.SkipTriviaKeepsRuleStart | src/bnf.net/Parsing/TokenStream.cs:88-111 | skipping trivia does not change whether a rule starts at the cursor |
| TokenStreamLaws.SkipsIdempotent | src/bnf.net/Parsing/TokenStream.cs:157-164 | skipping trivia or continuation lines a second time moves nothing |
| TokenStreamLaws.EqualAfterBlanksMeans | src/bnf.net/Parsing/TokenStream.cs:105-110 | the lookahead after a rule name holds iff, after whitespace only, the next token exists and is `=` |
| TokenStreamLaws.DefinitionAfterTriviaMeans | src/bnf.net/Parsing/TokenStream.cs:92-110 | the lookahead holds iff, after whitespace and comments, a rule name and then `=` follow |
| TokenStreamLaws.RuleStartMeans | src/bnf.net/Parsing/TokenStream.cs:88-111 | a rule starts at the cursor iff some stretch of trivia is followed by a name and then, after blanks, by `=` |
| TokenStreamLaws.BoundaryAfterTriviaMeans | src/bnf.net/Parsing/TokenStream.cs:129-148 | after a line break's trivia, the line ends a rule iff the array ends, another line break follows, or a definition follows |
| TokenStreamLaws.RuleBoundaryMeans | src/bnf.net/Parsing/TokenStream.cs:117-152 | a rule boundary is a line break that is last in the array or whose next line is empty or starts a definition |
| TokenStreamLaws.LastLineBreakIsBoundary | src/bnf.net/Parsing/TokenStream.cs:123-127 | a line break that is the last token is a boundary |
| TokenStreamLaws.ExplicitEndIsNoBoundary | src/bnf.net/Parsing/TokenStream.cs:125-151 | a line break followed by an explicit end-of-input token is no boundary, and continuation skipping passes over it to that token |
| Parsing.ParseAlternation | src/bnf.net/Parsing/Parser.cs:103-130 | an alternation never goes backwards, ends on a settled token that is not `/`, and is an alternation node only when it has at least two branches, a single branch being returned unwrapped |
| Parsing.AlternationRest | src/bnf.net/Parsing/Parser.cs:107-127 | the branches after a `/` are appended to those read so far, and reading ends on a settled token that is not `/` |
| Parsing.ParseConcatenation | src/bnf.net/Parsing/Parser.cs:136-161 | a concatenation never goes backwards, ends where no element starts, is never an alternation, and is a concatenation node only when it has at least two parts |
| Parsing.ConcatenationRest | src/bnf.net/Parsing/Parser.cs:140-158 | further repetitions are appended while an element starts, and reading ends on a settled token where none does |
| Parsing.ParseRepetition | src/bnf.net/Parsing/Parser.cs:166-193 | a repetition is read only at an element start; a repetition node comes only from a repeat prefix and wraps a single element, and the result is never an alternation or concatenation |
| Parsing.ParseElement | src/bnf.net/Parsing/Parser.cs:195-250 | an element is read only at an element start; anything else is "Expected element but found …" at the token |
| Parsing.ParseLeaf | src/bnf.net/Parsing/Parser.cs:197-249 | a single-token element consumes exactly its token; any other kind is the element error at the token |
| Parsing.ParseGroup | src/bnf.net/Parsing/Parser.cs:255-263 | a group is read only at `(` and yields a group node |
| Parsing.ParseOption | src/bnf.net/Parsing/Parser.cs:268-276 | an option is read only at `[` and yields an option node |
| Parsing.ParseRule | src/bnf.net/Parsing/Parser.cs:75-97 | a rule is read only at a rule-name token, and is named after that token |
| Parsing.RuleDefinition | src/bnf.net/Parsing/Parser.cs:77-82 | the rule read after a name carries that name |
| Parsing.EndRule | src/bnf.net/Parsing/Parser.cs:84-96 | a rule ends iff the cursor is on a rule boundary, which is consumed, or on the end of input, which is left in place; otherwise "Expected end of rule (CRLF)" at the token |
| Parsing.SkipLeading | src/bnf.net/Parsing/Parser.cs:42-44 | only whitespace, comments and line breaks are skipped before the first rule, and none remains at the cursor |
| Parsing.SyntaxMessage | src/bnf.net/Parsing/Parser.cs:296-302 | a syntax error prints as the file name, or `<input>` when none is given, then `(line,column): ` and the message: it starts with the file part and `(`, and ends with `(line,column): message` |
| ParserLaws.RuleListRoundTrip | src/bnf.net/Parsing/Parser.cs:38-68 | printing a list of rules in parser form, one per line, and parsing the tokens gives the same list back |
| ParserLaws.RuleLoopRoundTrip | src/bnf.net/Parsing/Parser.cs:46-65 | the rule loop reads back every printed rule in order and stops at the end of input |
| ParserLaws.RuleLoopStep | src/bnf.net/Parsing/Parser.cs:46-51 | at a rule start, the loop parses one rule and goes on with that rule appended |
| ParserLaws.RuleReadBack | src/bnf.net/Parsing/Parser.cs:75-97 | a printed rule, name and `=` followed by its expression, parses to that rule and is then closed exactly as `EndRule` closes it at the token after |
| ParserLaws.AlternationRoundTrip | src/bnf.net/Parsing/Parser.cs:103-130 | a printed alternation parses back to the same tree and stops right after it |
| ParserLaws.ConcatenationRoundTrip | src/bnf.net/Parsing/Parser.cs:136-161 | a printed concatenation parses back to the same tree and stops right after it |
| ParserLaws.RepetitionRoundTrip | src/bnf.net/Parsing/Parser.cs:166-193 | a printed repetition, bounds included, parses back to the same tree |
| ParserLaws.BoundsReadBack | src/bnf.net/Parsing/Parser.cs:171-176 | the bounds of a printed repeat prefix are read back unchanged |
| ParserLaws.ElementRoundTrip | src/bnf.net/Parsing/Parser.cs:195-250 | a printed element parses back to the same tree |
| ParserLaws.LeafRoundTrip | src/bnf.net/Parsing/Parser.cs:197-249 | a printed single-token element parses back to itself and consumes exactly one token |
| ParserLaws.GroupRoundTrip | src/bnf.net/Parsing/Parser.cs:255-263 | a printed group parses back to the same group |
| ParserLaws.OptionRoundTrip | src/bnf.net/Parsing/Parser.cs:268-276 | a printed option parses back to the same option |
| ParserExamples.ArithmeticRuleList | tests/bnf.net.Tests/UnitTest1.cs:65-78 | the printed token form of the five arithmetic rules (one rule per line, as the printer writes them, not the scan of the test's text) parses back to those rules in order |
| ParserExamples.StrayTokenRefused | src/bnf.net/Parsing/Parser.cs:59-63 | a leading `=` stops the rule list with "Expected rule name but found Equal" at line 1, column 1 |
| ParserExamples.IndentedFirstRule | src/bnf.net/Parsing/Parser.cs:84-89 | in `a = b`, a line break and ` c = d`, the line break ends the first rule and is consumed |
| ParserExamples.IndentedSecondRule | src/bnf.net/Parsing/Parser.cs:75-77 | a rule starting on a blank is a rule start by the lookahead, but `Expect(RuleName)` refuses the blank |
| ParserExamples.BlankForName | src/bnf.net/Parsing/Parser.cs:77 | a rule starting on a blank is refused with "Expected RuleName but found Whitespace" at the blank |
| ParserExamples.IndentedRuleRefused | src/bnf.net/Parsing/Parser.cs:46-51 | a rule list whose second rule is indented is refused at the indentation |
| Converter.CharValues | src/abnf.net/Parsing/AstToGrammarConverter.cs:116-119 | the dotted parts become one character value each, in order, iff every part parses as a 32-bit number in the base; otherwise the error is one part's |
| Converter.ConvertNumberVal | src/abnf.net/Parsing/AstToGrammarConverter.cs:68-125 | a value converts only if it starts with `%` and a base letter, and then becomes a range, one character value, or a sequence of character values |
| Converter.ConvertExpression | src/abnf.net/Parsing/AstToGrammarConverter.cs:26-41 | every node converts to the pattern of the same shape, and conversion succeeds iff every number value in it is convertible |
| Converter.ConvertAll | src/abnf.net/Parsing/AstToGrammarConverter.cs:43-53 | a list of nodes converts pointwise iff every node converts; otherwise the error is that of the first node that fails |
| Converter.ConvertRule | src/abnf.net/Parsing/AstToGrammarConverter.cs:20-24 | a rule converts iff its expression does, keeping its name |
| Converter.ConvertRules | src/abnf.net/Parsing/AstToGrammarConverter.cs:16 | the rules convert one for one, in order, iff each converts |
| Converter.ToGrammar | src/abnf.net/Parsing/AstToGrammarConverter.cs:14-18 | a rule list becomes a grammar iff every rule converts and no two names are equal ignoring case |
| Converter.ToGrammarKeepsRules | src/abnf.net/Parsing/AstToGrammarConverter.cs:14-18 | every converted rule can be looked up in the grammar under its name |
| ConverterLaws.SingleValueRoundTrip | src/abnf.net/Parsing/AstToGrammarConverter.cs:122-124 | a value written as `%x`, `%d` or `%b` digits converts back to that one character value |
| ConverterLaws.RangeRoundTrip | src/abnf.net/Parsing/AstToGrammarConverter.cs:99-111 | a range written from two values converts to a range with those bounds, as written, even when the lower bound is larger |
| ConverterLaws.NegativeValueRoundTrip | src/abnf.net/Parsing/AstToGrammarConverter.cs:122-124 | a negative 32-bit value written in hexadecimal as its two's complement, such as `%xFFFFFFFF` for -1, converts back to that negative character value |
| ConverterLaws.ConcatenationRoundTrip | src/abnf.net/Parsing/AstToGrammarConverter.cs:113-120 | a dotted value written from codes converts to the sequence of those character values |
| ConverterLaws.MalformedPrefixRefused | src/abnf.net/Parsing/AstToGrammarConverter.cs:71-97 | a value that does not start with `%` and a base letter is refused with "Invalid number value format" |
| ConverterLaws.RangeWithTwoDashesRefused | src/abnf.net/Parsing/AstToGrammarConverter.cs:102-106 | a range with more than one `-` is refused with "Invalid range format" |
| ConverterLaws.BadDigitRefused | src/abnf.net/Parsing/AstToGrammarConverter.cs:108-123 | a digit outside the base is refused |
| ConverterLaws.CharValuesMatch | src/abnf.net/Parsing/AstToGrammarConverter.cs:116-119 | a sequence of character values matches iff the next characters have exactly those codes, and then it moves past them |
| ConverterLaws.HexConcatenationDecodes | src/abnf.net/Parsing/AstToGrammarConverter.cs:113-120 | `%x41.42.43` converts to the sequence of the character values of `ABC` |
| ConverterLaws.HexConcatenationMatches | src/abnf.net/Parsing/AstToGrammarConverter.cs:113-120 | that sequence matches an input iff the input starts with `ABC` |
| ConverterLaws.HexRangeDecodes | src/abnf.net/Parsing/AstToGrammarConverter.cs:99-111 | `%x41-5A` converts to the range from `A` to `Z` |
| ConverterLaws.HexRangeMatches | src/abnf.net/Parsing/AstToGrammarConverter.cs:99-111 | the pattern from `%x41-5A` matches iff the first character is an upper-case ASCII letter |
| ConverterLaws.DecimalExample | src/abnf.net/Parsing/AstToGrammarConverter.cs:122-124 | `%d65` converts to the character value 65 |
| MatchResults.Success | src/abnf.net/Grammar/MatchResult.cs:35-36 | a success carries its position as the furthest position and no message |
| MatchResults.Failure | src/abnf.net/Grammar/MatchResult.cs:38-39 | a failure stays at its position and is furthest there, with its message |
| MatchResults.FailureWithFurthest | src/abnf.net/Grammar/MatchResult.cs:44-45 | a failure keeps its own position and message apart from the furthest position and message it reports |
| Contexts.BuildTable | src/abnf.net/Grammar/GrammarContext.cs:13 | the rule table is built iff no two names are equal ignoring case, and then holds every rule under its folded name |
| Contexts.RepeatedKey | src/abnf.net/Grammar/GrammarContext.cs:13 | a name that repeats ignoring case makes the table fail |
| Contexts.NewKey | src/abnf.net/Grammar/GrammarContext.cs:13 | adding a rule under a folded name not yet in the table keeps the table faithful to one more rule, and the names so far stay distinct |
| Contexts.TableDetermined | src/abnf.net/Grammar/GrammarContext.cs:13 | two tables that each hold exactly the listed rules under their folded names are equal |
| Contexts.NewContext | src/abnf.net/Grammar/GrammarContext.cs:11-15 | a context is created iff the names are distinct ignoring case, with the table of the rules and an empty stack |
| Contexts.TryGetRule | src/abnf.net/Grammar/GrammarContext.cs:17-20 | a lookup finds a rule iff the folded name is a key of the table |
| Contexts.LookupIgnoresCase | src/abnf.net/Grammar/GrammarContext.cs:17-20 | two spellings equal ignoring case find the same rule |
| Contexts.IsInRecursionChain | src/abnf.net/Grammar/GrammarContext.cs:22-28 | a rule is in the chain iff the stack holds an entry equal to it ignoring case at the same position |
| Contexts.RecursionChainIsMembership | src/abnf.net/Grammar/GrammarContext.cs:22-28 | the chain check is membership of the folded (name, position) pair among the folded stack entries |
| Contexts.PushRule | src/abnf.net/Grammar/GrammarContext.cs:30-33 | pushing keeps the table, puts the pair on top of the stack, and is undone by a pop |
| Contexts.PopRule | src/abnf.net/Grammar/GrammarContext.cs:35-41 | popping keeps the table; an empty stack is left as it is, and otherwise exactly the top entry is removed |
| Matching.MatchTerminal | src/abnf.net/Grammar/GrammarRule.cs:72-90 | a terminal matches iff the input at the position has the literal there, compared exactly or ignoring case as flagged; a success moves past the literal and a failure stays at the position |
| Matching.MatchCharRange | src/abnf.net/Grammar/GrammarRule.cs:107-121 | a range matches iff a character is left whose code lies between the bounds; a success moves by one |
| Matching.MatchCharValue | src/abnf.net/Grammar/GrammarRule.cs:136-150 | a character value matches iff a character is left whose code equals the value; a success moves by one |
| Matching.Match | src/abnf.net/Grammar/GrammarRule.cs:28 | every pattern leaves the context as it found it, pushes and pops balanced, and returns a well-formed result within the input |
| Matching.MatchSequence | src/abnf.net/Grammar/GrammarRule.cs:204-219 | a sequence keeps the context and returns a well-formed result |
| Matching.MatchAlternation | src/abnf.net/Grammar/GrammarRule.cs:236-257 | an alternation keeps the context and returns a well-formed result |
| Matching.RepeatLoop | src/abnf.net/Grammar/GrammarRule.cs:284-300 | the repetition loop keeps the context, ends between the start and the end of the input, and counts no more than the maximum |
| MatcherLaws.RuleReferenceBehaviour | src/abnf.net/Grammar/GrammarRule.cs:165-187 | an undefined rule fails with "Undefined rule 'x'"; a rule already on the chain at this position fails with the left-recursion message; otherwise the referenced rule's pattern is matched with the pair pushed, and its result is returned |
| MatcherLaws.SequenceConcat | src/abnf.net/Grammar/GrammarRule.cs:204-219 | matching a concatenation of two pattern lists is matching the first list and then the second from where it stopped |
| MatcherLaws.SequenceFailureIsElementFailure | src/abnf.net/Grammar/GrammarRule.cs:211-214 | a failing sequence returns exactly the failure of one of its elements, matched at some position within the input |
| MatcherLaws.SequenceCons | src/abnf.net/Grammar/GrammarRule.cs:204-219 | a sequence matches its first element and then the rest from the position reached |
| MatcherLaws.SingletonSequence | src/abnf.net/Grammar/GrammarRule.cs:204-219 | a sequence of one element behaves as that element |
| MatcherLaws.AlternationTakesFirstSuccess | src/abnf.net/Grammar/GrammarRule.cs:243-246 | the first alternative that succeeds decides the result, even when a later one would go further |
| MatcherLaws.AlternationReportsFurthest | src/abnf.net/Grammar/GrammarRule.cs:249-256 | when every alternative fails, the result is that of the earliest alternative among those whose failure got furthest; with no alternatives it is "No alternatives provided" |
| MatcherLaws.AlternationSucceedsIffSomeAlternative | src/abnf.net/Grammar/GrammarRule.cs:236-257 | an alternation succeeds iff some alternative succeeds at the position |
| MatcherLaws.SingletonAlternation | src/abnf.net/Grammar/GrammarRule.cs:236-257 | an alternation of one pattern succeeds exactly where that pattern does, at the same position |
| MatcherLaws.RepeatLoopStops | src/abnf.net/Grammar/GrammarRule.cs:284-300 | the loop stops only at the maximum count, on an element failure at the point reached (which it records), or on a counted iteration that ends back at the start |
| MatcherLaws.RepeatLoopChain | src/abnf.net/Grammar/GrammarRule.cs:284-300 | the loop's end is reached from the start by a chain of successful matches of the element, one per counted iteration |
| MatcherLaws.RepetitionChain | src/abnf.net/Grammar/GrammarRule.cs:276-318 | a successful repetition ends where that chain of element matches ends |
| MatcherLaws.RepetitionOutcome | src/abnf.net/Grammar/GrammarRule.cs:302-317 | a repetition succeeds iff the count reaches the minimum, and then ends where the loop ended; otherwise it fails at its start, carrying the last element failure's furthest position and message when there is one |
| MatcherLaws.ZeroMatchesSucceed | src/abnf.net/Grammar/GrammarRule.cs:302-317 | with no minimum or minimum 0 and an element that fails at once, a repetition succeeds without consuming |
| MatcherLaws.OptionalElement | src/abnf.net/Grammar/GrammarRule.cs:276-318 | `0*1` of a pattern succeeds where the pattern does and otherwise succeeds at the start without consuming |
| Grammars.NewGrammar | src/abnf.net/Grammar/Grammar.cs:7-9 | a grammar is built iff no two rule names are equal ignoring case |
| Grammars.TryGetRule | src/abnf.net/Grammar/Grammar.cs:78-81 | a lookup finds a rule iff the folded name is in the table, and it is the rule stored there |
| Grammars.GrammarLookup | src/abnf.net/Grammar/Grammar.cs:78-81 | every rule of a built grammar is found under every spelling of its name, and nothing is found for a name matching none |
| Grammars.Validate | src/abnf.net/Grammar/Grammar.cs:20-45 | validation succeeds iff the start rule exists and its match consumes the whole input; a missing rule is reported at 0, a failed match at its furthest position with its message, and an early stop where it stopped, with "Matched successfully but N character(s) remaining: '…'" naming the rest |
| Grammars.TryValidate | src/abnf.net/Grammar/Grammar.cs:58-73 | the same verdict, with a 1-based position between 1 and the input length plus one and the same message |
| Validation.Success | src/abnf.net/Grammar/ValidationResult.cs:35-36 | a success has no position and no message |
| Validation.Failure | src/abnf.net/Grammar/ValidationResult.cs:43-44 | a failure keeps its position and message |
| Validation.LineColumn | src/abnf.net/Grammar/ValidationResult.cs:52-78 | the line and column are at least 1, and are (1, 1) for a success or an empty input |
| Validation.GetLineColumn | src/abnf.net/Grammar/ValidationResult.cs:52-78 | the character loop ends at the line and column of the reference definition: one line per line feed before the error, and one column per character after the last line feed that is not a carriage return |
| Validation.FormatError | src/abnf.net/Grammar/ValidationResult.cs:85-94 | empty iff a success; otherwise "Line L, Column C: " and the message, at the error's line and column |
| Validation.FormatErrorWithPosition | src/abnf.net/Grammar/ValidationResult.cs:100-108 | empty iff a success; otherwise "Position P: " with the 1-based position, and the message |
| GrammarExamples.NumberGrammarBuilds | tests/bnf.net.Tests/UnitTest1.cs:56-63 | the hand-built number grammar has distinct names and builds into the expected table |
| GrammarExamples.NumberAcceptsOneDigit | tests/bnf.net.Tests/UnitTest1.cs:80-90 | `number` accepts a single digit |
| GrammarExamples.NumberAcceptsDigits | tests/bnf.net.Tests/UnitTest1.cs:80-90 | `number` accepts `123` |
| GrammarExamples.NumberRejectsEmpty | tests/bnf.net.Tests/UnitTest1.cs:92-101 | `number` refuses the empty string |
| GrammarExamples.NumberRejectsLetter | tests/bnf.net.Tests/UnitTest1.cs:92-101 | `number` refuses `a` |
| GrammarExamples.NumberStopsAtLetter | tests/bnf.net.Tests/UnitTest1.cs:92-101 | `number` refuses `1a` at position 1, where the match stopped |
| GrammarExamples.RecursiveBranchCut | src/abnf.net/Grammar/GrammarRule.cs:173-176 | with `r` already entered at position 0, the recursive branch fails there with the left-recursion message |
| GrammarExamples.OuterRule | src/abnf.net/Grammar/GrammarRule.cs:165-187 | from the start of a non-empty input, `r` matches one character when it is `y`, two when `x` follows, and otherwise fails with the left-recursion message |
| GrammarExamples.LeftRecursionAcceptsY | src/abnf.net/Grammar/GrammarRule.cs:173-176 | `r = r "x" / "y"` accepts `y` through its second alternative |
| GrammarExamples.LeftRecursionAcceptsYX | src/abnf.net/Grammar/GrammarRule.cs:173-176 | `r = r "x" / "y"` accepts `yx` |
| GrammarExamples.YxxStopsAtTwo | src/abnf.net/Grammar/GrammarRule.cs:236-257 | on `yxx` the rule's match stops after two characters |
| GrammarExamples.LeftRecursionRejectsYXX | src/abnf.net/Grammar/Grammar.cs:37-42 | `yxx` is refused at position 2, naming the one remaining character |
| GrammarExamples.LeftRecursionRejectsX | src/abnf.net/Grammar/GrammarRule.cs:173-176 | `x` is refused with the left-recursion message |
| GrammarExamples.ZeroWidthAfterProgress | src/abnf.net/Grammar/GrammarRule.cs:295-299 | after one real match, zero-width matches of the element keep counting up to the maximum: `0*3("a" / "")` on `a` counts 3 and succeeds at 1 |
| ArithmeticExamples.ArithmeticConverts | tests/bnf.net.Tests/UnitTest1.cs:65-78 | the five parsed arithmetic rules convert to the expected patterns |
| ArithmeticExamples.ArithmeticGrammarBuilds | tests/bnf.net.Tests/UnitTest1.cs:65-78 | the parsed arithmetic rule list compiles into the grammar with the expected table |
| ArithmeticExamples.ValidateIsRecogniser | src/abnf.net/Grammar/Grammar.cs:20-45 | validating with start rule `expr` accepts exactly the strings that an independent greedy recogniser of sums, products, numbers and brackets reads to the end |
| ArithmeticExamples.DigitsRecognised | tests/bnf.net.Tests/UnitTest1.cs:103-114 | `123` is an arithmetic expression |
| ArithmeticExamples.SumRecognised | tests/bnf.net.Tests/UnitTest1.cs:103-114 | `1+2` is an arithmetic expression |
| ArithmeticExamples.MixedRecognised | tests/bnf.net.Tests/UnitTest1.cs:103-114 | `10*5+3` is an arithmetic expression |
| ArithmeticExamples.BracketedRecognised | tests/bnf.net.Tests/UnitTest1.cs:103-114 | `(1+2)*3` is an arithmetic expression |
| ArithmeticExamples.TrailingOperatorRefused | tests/bnf.net.Tests/UnitTest1.cs:116-128 | `1+` is not an arithmetic expression |
| ArithmeticExamples.UnclosedBracketRefused | tests/bnf.net.Tests/UnitTest1.cs:116-128 | `(1+2` is not an arithmetic expression |
| ArithmeticExamples.BlanksRefused | tests/bnf.net.Tests/UnitTest1.cs:116-128 | `1 + 2` is not an arithmetic expression |
| ArithmeticExamples.OtherInputsRefused | tests/bnf.net.Tests/UnitTest1.cs:116-128 | `abc`, the empty string and `+1` are not arithmetic expressions |
| ArithmeticExamples.SampleVerdicts | tests/bnf.net.Tests/UnitTest1.cs:103-128 | the compiled arithmetic grammar accepts `123`, `1+2`, `10*5+3` and `(1+2)*3`, and refuses `1+`, `(1+2`, `1 + 2` and `abc` |
| NumberText.SourceScanned | src/abnf.net/Parsing/Scanner.cs:10-43 | the grammar text scans to its thirteen tokens, with their lines and columns |
| NumberText.SourceParsed | src/bnf.net/Parsing/Parser.cs:38-68 | those tokens parse to the rules `number = 1*DIGIT` and `DIGIT = %x30-39` |
| NumberText.SourceConverts | src/abnf.net/Parsing/AstToGrammarConverter.cs:14-24 | the parsed rules convert to a repetition of a reference and a character range |
| NumberText.Compile | src/abnf.net/Abnf.cs:17-23 | a text compiles iff its scanned tokens parse, every rule converts and no two rule names are equal ignoring case, and the grammar is then the conversion of the parsed rule list; a syntax error from the parse is the result unchanged |
| NumberText.SourceCompiles | src/abnf.net/Abnf.cs:17-23 | the grammar text compiles to the number grammar |
| NumberText.NumberVerdicts | tests/bnf.net.Tests/UnitTest1.cs:80-101 | the number grammar has two rules, accepts `123`, refuses the empty string and `a`, and refuses `1a` at position 1 |
| NumberText.SourceValidates | tests/bnf.net.Tests/UnitTest1.cs:41-51 | the grammar compiled from its text has two rules and gives the same verdicts on `123`, the empty string, `a` and `1a` |
| SExpressions.EscapeChar | src/abnf.net/Grammar/SExpressionSerializer.cs:115-123 | a character escapes to itself, a backslash never, or to a pair starting with a backslash; no escape holds a raw line feed, carriage return or tab |
| SExpressions.EscapeIsPerCharacter | src/abnf.net/Grammar/SExpressionSerializer.cs:115-123 | the chain of replacements escapes each character on its own, so the escape of a text is the concatenation of its characters' escapes |
| SExpressions.EscapeAppend | src/abnf.net/Grammar/SExpressionSerializer.cs:115-123 | escaping a concatenation is concatenating the escapes |
| SExpressions.EscapeRoundTrip | src/abnf.net/Grammar/SExpressionSerializer.cs:115-123 | escaped text unescapes back to the text and holds no raw line feed, carriage return or tab |
| SExpressions.BackslashFirstMatters | src/abnf.net/Grammar/SExpressionSerializer.cs:118 | escaping backslashes first is needed: escaping the quote first and backslashes after would not read back to `"` |
| SExpressions.FormatChar | src/abnf.net/Grammar/SExpressionSerializer.cs:96-113 | a printable ASCII code other than `"` and `\` prints quoted as `'c'`; any other code, negative ones included, is `0x` with at least two upper-case hexadecimal digits |
| SExpressions.CharRoundTrip | src/abnf.net/Grammar/SExpressionSerializer.cs:96-113 | every 32-bit code prints in a form that reads back to it |
| SExpressions.ToSExpr | src/abnf.net/Grammar/SExpressionSerializer.cs:39-68 | every pattern prints as one parenthesised form |
| SExpressions.FormatList | src/abnf.net/Grammar/SExpressionSerializer.cs:70-86 | a named list prints as one parenthesised list |
| SExpressions.ListShapes | src/abnf.net/Grammar/SExpressionSerializer.cs:70-86 | an empty list prints as its bare name in brackets, a single pattern unwrapped, and a longer list as its name and its forms separated by spaces |
| SExpressions.ItemsJoined | src/abnf.net/Grammar/SExpressionSerializer.cs:80-84 | the items of a non-empty list are their forms joined by spaces |
| SExpressions.SingletonUnwrapped | src/abnf.net/Grammar/SExpressionSerializer.cs:75-76 | a sequence or alternation of one pattern prints as that pattern |
| SExpressions.MissingBounds | src/abnf.net/Grammar/SExpressionSerializer.cs:88-94 | a missing minimum prints as `0`, and with no maximum either the form is `(repeat 0 ∞ e)` |
| SExpressions.NoBounds | src/abnf.net/Grammar/SExpressionSerializer.cs:88-94 | an unbounded repetition prints as `(repeat 0 ∞ e)` |
| SExpressions.FormOneLine | src/abnf.net/Grammar/SExpressionSerializer.cs:39-68 | a pattern whose referenced rule names hold no line feed prints on one line, since escaping removes line feeds from terminals |
| SExpressions.RuleOneLine | src/abnf.net/Grammar/SExpressionSerializer.cs:31-34 | such a rule with a name free of line feeds has a line that holds no line feed |
| SExpressions.GrammarLines | src/abnf.net/Grammar/SExpressionSerializer.cs:13-26 | a grammar's lines are the header `(grammar`, one indented line per rule in order, and `)` |
| SExpressions.GrammarJoined | src/abnf.net/Grammar/SExpressionSerializer.cs:13-26 | a grammar's form is its lines joined by line feeds |
| SExpressions.GrammarLayout | src/abnf.net/Grammar/SExpressionSerializer.cs:13-26 | when no rule spans lines, splitting a grammar's form at line feeds gives the header, one line per rule in order, and `)` |

## Left out

- MatchCharValue: the model's strings are sequences of Unicode scalar
  values, while .NET indexes UTF-16 code units. So `%x1F600` matches one
  astral character in the model but can never match in the source, where
  `input[position]` is at most 0xFFFF.
- MatchCharRange: for the same reason, a range that reaches above 0xFFFF
  matches a whole astral character in the model. The source matches only
  that character's first surrogate unit and leaves the second to the
  next pattern.
- CharOfCode: `(char)code` keeps the low 16 bits. A result that is a
  lone surrogate (0xD800 to 0xDFFF) has no Dafny `char`, so it becomes
  U+FFFD. A `%xD800` literal therefore matches U+FFFD in the model and
  matches nothing a well-formed string holds in the source.
- Advance: adds one column per scalar value, while the source adds one
  per UTF-16 unit. After an astral character the model's columns are one
  smaller.
- Scan: input positions count scalar values, not UTF-16 units, for the
  same reason. Token texts are the same.
- LineColumn: counts an astral character as one column where the source
  counts two. Validation offsets are scalar-value offsets.
- Fold: case folding is ASCII only. It stands for `OrdinalIgnoreCase`,
  which also folds other letters such as `é`/`É`. Non-ASCII rule names
  and case-insensitive terminals compare exactly in the model.
- ToInt32: reads plain digit strings only. It does not model the
  `0x`/`0X` prefix that `Convert.ToInt32(s, 16)` also accepts, nor the
  signs and surrounding blanks accepted by `int.Parse` in
  `GetRepetitionBounds`. The scanner never puts any of these in a number
  or repeat token. Bases 2 and 16 read 32-bit patterns as two's
  complement, as .NET does. The .NET exception types for malformed
  numbers are modelled as error values, with messages of the model's own.
- ConvertNumberVal: the same limits apply to the digits it reads.
- GrammarToSExpr: the grammar header and rule lines end with
  `Environment.NewLine`, modelled as `"\n"`. The rules are taken in the
  order of the rule list. The order in which .NET's `Dictionary`
  enumerates `Grammar.Rules` is not part of its contract and is not
  modelled.
- ToSExpr: the serialiser's fallback branch for an unknown pattern type
  is unreachable, because the pattern types form a closed datatype.
  `ConvertExpression`'s fallback branch is unreachable for the same
  reason.
- Recogniser: the .NET regular-expression engine is not modelled. Each
  named group of the scanner's expression is written as an explicit
  recogniser, and the alternatives are tried in the expression's order.
  That these recognisers agree with the regular expression is by
  construction, not proved.
- PeekIsLookahead: the 32-bit overflow of `_position + offset` for huge
  offsets is not modelled. A negative peek is an error value where the
  source throws `IndexOutOfRangeException`.
- Match: its own contract states only that the context is kept and the
  result is well formed. What each kind of pattern does is stated by the
  `MatcherLaws` lemmas.
- RuleLoop: its own contract states only that rules are appended. The
  round trip (`ParserLaws.RuleLoopRoundTrip`) and the refusal examples
  (`ParserExamples`) carry the rest.
- ScanFrom: its own contract states only that the result is non-empty.
  `ScanEmits`, `ScanSkips`, `ScanAtEnd` and the `ScannerLaws` lemmas state
  its behaviour.
- SampleVerdicts: the nested sample `((1+2)*(3+4))/5` is not among the
  proved verdicts. It follows from `ValidateIsRecogniser` like the
  others, but only at a proof cost out of proportion to its worth.
- ArithmeticRuleList: parses the printed token form of the five
  arithmetic rules, not the scan of the test's grammar text, which opens
  with a line break and has blank tokens between elements. Only the
  number grammar is taken from its text through every stage
  (`NumberText`).
- ValidateIsRecogniser: requires the input to be shorter than
  `int.MaxValue` characters, the bound under which positions are .NET
  integers.
- SourceValidates: the grammar text separates its two rules with
  `"\r\n"` where the test's text uses `"\n"`. The scanner makes one
  line-break token of either, and the parse is the same.
- Exceptions, stack overflow on very deep recursion, the file name
  passed to `SyntaxException` (carried as a parameter of
  `SyntaxMessage`), and the bnf.net sample programs and console tools
  are not modelled. `bnf.net`'s own `Token` class has no
  `GetRepetitionBounds`. The parser's call to it is modelled with the
  abnf.net token's method, which it matches.
