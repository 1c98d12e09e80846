/** The number grammar from its text: `number = 1*DIGIT`, a line break, and
    `DIGIT = %x30-39`, scanned, parsed, compiled and validated. Each stage is
    taken from the one before, so the verdicts at the end are about the
    grammar as written, not about a hand-built table. */
module NumberText {
  import opened Wrappers
  import opened Text
  import opened Errors
  import opened Tokens
  import opened Scanning
  import opened ScannerLaws
  import opened TokenStreams
  import opened Parsing
  import Patterns
  import Validation
  import A = Ast
  import Converter
  import Grammars
  import TokenLaws
  import ArithmeticExamples
  import GrammarExamples
  import ParserLaws
  import ParserExamples

  /** `number = 1*DIGIT`, a line break, and `DIGIT = %x30-39`. */
  const Source: string := "number" + " = " + "1*" + "DIGIT" + "\r\n" + "DIGIT" + " = " + "%x30-39"

  /** The tokens of `Source`, with the line and column each starts at. */
  const SourceTokens: seq<Token> := [
    Token(RuleName, "number", 1, 1), Token(Whitespace, " ", 1, 7), Token(Equal, "=", 1, 8),
    Token(Whitespace, " ", 1, 9), Token(Repeat, "1*", 1, 10), Token(RuleName, "DIGIT", 1, 12),
    Token(CRLF, "\r\n", 1, 17),
    Token(RuleName, "DIGIT", 2, 1), Token(Whitespace, " ", 2, 6), Token(Equal, "=", 2, 7),
    Token(Whitespace, " ", 2, 8), Token(ValueRange, "%x30-39", 2, 9),
    Token(EndOfInput, "", 2, 16)
  ]

  // ---------------------------------------------------------------------
  // Scanning
  // ---------------------------------------------------------------------

  /** A single blank is a whitespace token. */
  lemma BlankToken(input: string, pos: nat)
    requires pos + 1 < |input| && input[pos] == ' ' && !IsBlank(input[pos + 1])
    ensures Recognise(input, pos) == Some((Whitespace, 1))
  {
    assert Run(input, pos + 1, IsBlank) == 0;
    assert Order[0] == Whitespace;
    FirstMatchGivesToken(input, pos, 0, 1);
  }

  /** `=` is an equal sign: no earlier alternative matches it. */
  lemma EqualToken(input: string, pos: nat)
    requires pos < |input| && input[pos] == '='
    ensures Recognise(input, pos) == Some((Equal, 1))
  {
    assert Order[11] == Equal;
    forall j | 0 <= j < 11 ensures Recogniser(Order[j], input, pos).None? {
      assert Run(input, pos, IsBlank) == 0;
      assert Run(input, pos, IsDigit) == 0;
    }
    FirstMatchGivesToken(input, pos, 11, 1);
  }

  /** `\r\n` is one line break token. */
  lemma LineBreakToken(input: string, pos: nat)
    requires pos + 1 < |input| && input[pos] == '\r' && input[pos + 1] == '\n'
    ensures Recognise(input, pos) == Some((CRLF, 2))
  {
    assert Order[2] == CRLF;
    forall j | 0 <= j < 2 ensures Recogniser(Order[j], input, pos).None? {
      assert Run(input, pos, IsBlank) == 0;
    }
    FirstMatchGivesToken(input, pos, 2, 2);
  }

  /** The length of a run, read off its characters. */
  lemma RunIs(input: string, pos: nat, n: nat, p: char -> bool)
    requires pos + n <= |input|
    requires forall i :: pos <= i < pos + n ==> p(input[i])
    requires pos + n == |input| || !p(input[pos + n])
    ensures Run(input, pos, p) == n
  {
  }

  /** A text without a line feed moves the column by its length. */
  lemma {:induction false} AdvanceInLine(line: int, column: int, text: string)
    requires forall i :: 0 <= i < |text| ==> text[i] != '\n'
    ensures Advance(line, column, text) == (line, column + |text|)
    decreases |text|
  {
    if |text| > 0 {
      AdvanceInLine(line, column + 1, text[1..]);
    }
  }

  /** A name of letters, digits and hyphens, ended by anything else. */
  lemma NameToken(input: string, pos: nat, n: nat)
    requires 1 <= n && pos + n <= |input| && IsLetter(input[pos])
    requires forall i :: pos + 1 <= i < pos + n ==> IsNameChar(input[i])
    requires pos + n == |input| || !IsNameChar(input[pos + n])
    ensures Recognise(input, pos) == Some((RuleName, n))
  {
    RunIs(input, pos + 1, n - 1, IsNameChar);
    LetterStartsName(input, pos);
  }

  /** A digit and `*` before something that is not a digit. */
  lemma RepeatToken(input: string, pos: nat)
    requires pos + 2 < |input| && IsDigit(input[pos]) && input[pos + 1] == '*' && !IsDigit(input[pos + 2])
    ensures Recognise(input, pos) == Some((Repeat, 2))
  {
    assert Run(input, pos + 2, IsDigit) == 0;
    RepeatWins(input, pos, pos + 1);
  }

  /** `%x`, two hex digits, `-` and two hex digits, at the end of the input. */
  lemma RangeToken(input: string, pos: nat)
    requires pos + 7 == |input| && input[pos] == '%' && input[pos + 1] == 'x' && input[pos + 4] == '-'
    requires IsHexDigit(input[pos + 2]) && IsHexDigit(input[pos + 3])
    requires IsHexDigit(input[pos + 5]) && IsHexDigit(input[pos + 6])
    ensures Recognise(input, pos) == Some((ValueRange, 7))
  {
    RunIs(input, pos + 2, 2, IsHexDigit);
    RunIs(input, pos + 5, 2, IsHexDigit);
    assert RangeText(input, pos) == Some(7);
    RangeBeforeNumber(input, pos);
  }

  /** A match at `pos` of `value`, which holds no line feed: the scan emits
      it and goes on after it, on the same line. */
  lemma EmitInLine(input: string, m: Matcher, pos: nat, line: int, column: int, kind: TokenKind, value: string)
    requires pos < |input| && Fits(input, m) && m(pos) == Some((kind, |value|))
    requires pos + |value| <= |input| && input[pos..pos + |value|] == value
    requires forall i :: 0 <= i < |value| ==> value[i] != '\n'
    ensures ScanFrom(input, m, pos, line, column) ==
      [Token(kind, value, line, column)] + ScanFrom(input, m, pos + |value|, line, column + |value|)
  {
    ScanEmits(input, m, pos, line, column, kind, |value|);
    AdvanceInLine(line, column, value);
  }

  /** The characters of `Source`, piece by piece. The lemmas below are
      stated over any text laid out this way, which keeps the solver from
      evaluating the scanner on the literal. */
  predicate Layout(input: string) {
    && |input| == 33
    && input[0..6] == "number" && input[6] == ' ' && input[7] == '=' && input[8] == ' '
    && input[9] == '1' && input[10] == '*' && input[11..16] == "DIGIT"
    && input[16] == '\r' && input[17] == '\n'
    && input[18..23] == "DIGIT" && input[23] == ' ' && input[24] == '=' && input[25] == ' '
    && input[26..33] == "%x30-39"
  }

  /** What the lexer's pattern matches at each token of such a text. */
  predicate LaidOutMatches(input: string, m: Matcher)
    requires Layout(input)
  {
    && Fits(input, m)
    && m(0) == Some((RuleName, 6)) && m(6) == Some((Whitespace, 1)) && m(7) == Some((Equal, 1))
    && m(8) == Some((Whitespace, 1)) && m(9) == Some((Repeat, 2)) && m(11) == Some((RuleName, 5))
    && m(16) == Some((CRLF, 2))
    && m(18) == Some((RuleName, 5)) && m(23) == Some((Whitespace, 1)) && m(24) == Some((Equal, 1))
    && m(25) == Some((Whitespace, 1)) && m(26) == Some((ValueRange, 7))
  }

  lemma FirstLineRecognised(input: string)
    requires Layout(input)
    ensures Recognise(input, 0) == Some((RuleName, 6)) && Recognise(input, 6) == Some((Whitespace, 1))
    ensures Recognise(input, 7) == Some((Equal, 1)) && Recognise(input, 8) == Some((Whitespace, 1))
    ensures Recognise(input, 9) == Some((Repeat, 2)) && Recognise(input, 11) == Some((RuleName, 5))
    ensures Recognise(input, 16) == Some((CRLF, 2))
  {
    FirstNameRecognised(input);
    FirstEqualRecognised(input);
    FirstReferenceRecognised(input);
  }

  lemma FirstNameRecognised(input: string)
    requires Layout(input)
    ensures Recognise(input, 0) == Some((RuleName, 6))
  {
    assert forall i :: 0 <= i < 6 ==> input[i] == "number"[i];
    NameToken(input, 0, 6);
  }

  lemma FirstEqualRecognised(input: string)
    requires Layout(input)
    ensures Recognise(input, 6) == Some((Whitespace, 1))
    ensures Recognise(input, 7) == Some((Equal, 1)) && Recognise(input, 8) == Some((Whitespace, 1))
  {
    BlankToken(input, 6);
    EqualToken(input, 7);
    BlankToken(input, 8);
  }

  lemma FirstReferenceRecognised(input: string)
    requires Layout(input)
    ensures Recognise(input, 9) == Some((Repeat, 2)) && Recognise(input, 11) == Some((RuleName, 5))
    ensures Recognise(input, 16) == Some((CRLF, 2))
  {
    assert forall i :: 11 <= i < 16 ==> input[i] == "DIGIT"[i - 11];
    RepeatToken(input, 9);
    NameToken(input, 11, 5);
    LineBreakToken(input, 16);
  }

  lemma SecondLineRecognised(input: string)
    requires Layout(input)
    ensures Recognise(input, 18) == Some((RuleName, 5)) && Recognise(input, 23) == Some((Whitespace, 1))
    ensures Recognise(input, 24) == Some((Equal, 1)) && Recognise(input, 25) == Some((Whitespace, 1))
    ensures Recognise(input, 26) == Some((ValueRange, 7))
  {
    SecondNameRecognised(input);
    SecondEqualRecognised(input);
    RangeRecognised(input);
  }

  lemma SecondNameRecognised(input: string)
    requires Layout(input)
    ensures Recognise(input, 18) == Some((RuleName, 5))
  {
    assert forall i :: 18 <= i < 23 ==> input[i] == "DIGIT"[i - 18];
    NameToken(input, 18, 5);
  }

  lemma SecondEqualRecognised(input: string)
    requires Layout(input)
    ensures Recognise(input, 23) == Some((Whitespace, 1))
    ensures Recognise(input, 24) == Some((Equal, 1)) && Recognise(input, 25) == Some((Whitespace, 1))
  {
    BlankToken(input, 23);
    EqualToken(input, 24);
    BlankToken(input, 25);
  }

  lemma RangeRecognised(input: string)
    requires Layout(input)
    ensures Recognise(input, 26) == Some((ValueRange, 7))
  {
    assert forall i :: 26 <= i < 33 ==> input[i] == "%x30-39"[i - 26];
    RangeToken(input, 26);
  }

  lemma LaidOutRecognised(input: string)
    requires Layout(input)
    ensures LaidOutMatches(input, Matches(input))
  {
    FirstLineRecognised(input);
    SecondLineRecognised(input);
  }

  /** A token emitted in line before a scanned tail of `toks` starts the
      tail one token earlier. */
  lemma EmitsToken(input: string, m: Matcher, pos: nat, line: int, column: int, kind: TokenKind, value: string,
                   toks: seq<Token>, k: nat)
    requires pos < |input| && Fits(input, m) && m(pos) == Some((kind, |value|))
    requires pos + |value| <= |input| && input[pos..pos + |value|] == value
    requires forall i :: 0 <= i < |value| ==> value[i] != '\n'
    requires k < |toks| && toks[k] == Token(kind, value, line, column)
    requires ScanFrom(input, m, pos + |value|, line, column + |value|) == toks[k + 1..]
    ensures ScanFrom(input, m, pos, line, column) == toks[k..]
  {
    EmitInLine(input, m, pos, line, column, kind, value);
    assert toks[k..] == [toks[k]] + toks[k + 1..];
  }

  /** `%x30-39` and the end of the input. */
  lemma RangeScanned(input: string, m: Matcher)
    requires Layout(input) && LaidOutMatches(input, m)
    ensures ScanFrom(input, m, 26, 2, 9) == SourceTokens[11..]
  {
    ScanAtEnd(input, m, 2, 16);
    assert SourceTokens[12..] == [Token(EndOfInput, "", 2, 16)];
    EmitsToken(input, m, 26, 2, 9, ValueRange, "%x30-39", SourceTokens, 11);
  }

  /** ` %x30-39` and the end of the input. */
  lemma SecondBlankScanned(input: string, m: Matcher)
    requires Layout(input) && LaidOutMatches(input, m)
    ensures ScanFrom(input, m, 25, 2, 8) == SourceTokens[10..]
  {
    RangeScanned(input, m);
    assert input[25..26] == " ";
    EmitsToken(input, m, 25, 2, 8, Whitespace, " ", SourceTokens, 10);
  }

  /** `= %x30-39` and the end of the input. */
  lemma SecondEqualScanned(input: string, m: Matcher)
    requires Layout(input) && LaidOutMatches(input, m)
    ensures ScanFrom(input, m, 24, 2, 7) == SourceTokens[9..]
  {
    SecondBlankScanned(input, m);
    assert input[24..25] == "=";
    EmitsToken(input, m, 24, 2, 7, Equal, "=", SourceTokens, 9);
  }

  /** ` = %x30-39` and the end of the input. */
  lemma DefinitionScanned(input: string, m: Matcher)
    requires Layout(input) && LaidOutMatches(input, m)
    ensures ScanFrom(input, m, 23, 2, 6) == SourceTokens[8..]
  {
    SecondEqualScanned(input, m);
    assert input[23..24] == " ";
    EmitsToken(input, m, 23, 2, 6, Whitespace, " ", SourceTokens, 8);
  }

  /** `DIGIT = %x30-39` and the end of the input. */
  lemma SecondLineScanned(input: string, m: Matcher)
    requires Layout(input) && LaidOutMatches(input, m)
    ensures ScanFrom(input, m, 18, 2, 1) == SourceTokens[7..]
  {
    DefinitionScanned(input, m);
    EmitsToken(input, m, 18, 2, 1, RuleName, "DIGIT", SourceTokens, 7);
  }

  /** The line break and the second line. */
  lemma LineBreakScanned(input: string, m: Matcher)
    requires Layout(input) && LaidOutMatches(input, m)
    ensures ScanFrom(input, m, 16, 1, 17) == SourceTokens[6..]
  {
    SecondLineScanned(input, m);
    assert input[16..18] == "\r\n";
    ScanEmits(input, m, 16, 1, 17, CRLF, 2);
    assert SourceTokens[6..] == [SourceTokens[6]] + SourceTokens[7..];
  }

  /** `DIGIT`, the line break and the rest. */
  lemma ReferenceScanned(input: string, m: Matcher)
    requires Layout(input) && LaidOutMatches(input, m)
    ensures ScanFrom(input, m, 11, 1, 12) == SourceTokens[5..]
  {
    LineBreakScanned(input, m);
    EmitsToken(input, m, 11, 1, 12, RuleName, "DIGIT", SourceTokens, 5);
  }

  /** `1*DIGIT`, the line break and the rest. */
  lemma RepetitionScanned(input: string, m: Matcher)
    requires Layout(input) && LaidOutMatches(input, m)
    ensures ScanFrom(input, m, 9, 1, 10) == SourceTokens[4..]
  {
    ReferenceScanned(input, m);
    assert input[9..11] == "1*";
    EmitsToken(input, m, 9, 1, 10, Repeat, "1*", SourceTokens, 4);
  }

  /** ` 1*DIGIT` and the rest. */
  lemma FirstBlankScanned(input: string, m: Matcher)
    requires Layout(input) && LaidOutMatches(input, m)
    ensures ScanFrom(input, m, 8, 1, 9) == SourceTokens[3..]
  {
    RepetitionScanned(input, m);
    assert input[8..9] == " ";
    EmitsToken(input, m, 8, 1, 9, Whitespace, " ", SourceTokens, 3);
  }

  /** `= 1*DIGIT` and the rest. */
  lemma FirstEqualScanned(input: string, m: Matcher)
    requires Layout(input) && LaidOutMatches(input, m)
    ensures ScanFrom(input, m, 7, 1, 8) == SourceTokens[2..]
  {
    FirstBlankScanned(input, m);
    assert input[7..8] == "=";
    EmitsToken(input, m, 7, 1, 8, Equal, "=", SourceTokens, 2);
  }

  /** ` = 1*DIGIT` and the rest. */
  lemma FirstDefinitionScanned(input: string, m: Matcher)
    requires Layout(input) && LaidOutMatches(input, m)
    ensures ScanFrom(input, m, 6, 1, 7) == SourceTokens[1..]
  {
    FirstEqualScanned(input, m);
    assert input[6..7] == " ";
    EmitsToken(input, m, 6, 1, 7, Whitespace, " ", SourceTokens, 1);
  }

  /** The whole text, from its first character. */
  lemma LaidOutScanned(input: string, m: Matcher)
    requires Layout(input) && LaidOutMatches(input, m)
    ensures ScanFrom(input, m, 0, 1, 1) == SourceTokens
  {
    FirstDefinitionScanned(input, m);
    EmitsToken(input, m, 0, 1, 1, RuleName, "number", SourceTokens, 0);
  }

  lemma SourceLaidOut()
    ensures Layout(Source)
  {
  }

  /** The scanner splits the text into its thirteen tokens, each at the
      line and column it starts on. */
  lemma SourceScanned()
    ensures Scan(Source) == SourceTokens
  {
    SourceLaidOut();
    LaidOutRecognised(Source);
    LaidOutScanned(Source, Matches(Source));
  }

  // ---------------------------------------------------------------------
  // Parsing
  // ---------------------------------------------------------------------

  /** The two rules of the text, as the parser builds them. */
  const SourceRules: seq<A.Rule> := [
    A.Rule("number", A.Repetition(Some(1), None, A.RuleRef("DIGIT"))),
    A.Rule("DIGIT", A.NumberVal("%x30-39"))
  ]

  /** A single repetition or element that a list level cannot extend is the
      whole alternation. */
  lemma SingleAlternative(s: TokenStream, e: A.Expression, t: TokenStream)
    requires Valid(s) && Valid(t) && ParseRepetition(s) == Ok(Parsed(e, t))
    requires Settled(t) && !IsElementStart(t) && !Match(t, Slash)
    ensures ParseAlternation(s) == Ok(Parsed(e, t))
  {
    ParserLaws.ConcatenationRestStops(t, [e]);
    ParserLaws.ConcatenationStep(s, e, t, [e], t);
    ParserLaws.AlternationRestStops(t, [e]);
    ParserLaws.AlternationStep(s, e, t, [e], t);
  }

  /** A rule name, then trivia: the definition is read from after it. */
  lemma SpacedName(toks: seq<Token>, p: nat)
    requires p + 2 < |toks| && toks[p].kind == RuleName && toks[p + 1].kind == Whitespace
    requires toks[p + 2].kind == Equal
    ensures IsAtRuleStart(TokenStream(toks, p))
    ensures ParseRule(TokenStream(toks, p)) == RuleDefinition(toks[p].value, TokenStream(toks, p + 2))
  {
    assert EqualAfterBlanks(toks, p + 1) by {
      assert EqualAfterBlanks(toks, p + 2);
    }
    assert SkipTrivia(TokenStream(toks, p + 1)) == TokenStream(toks, p + 2);
  }

  /** `=`, a blank, then an expression whose end is settled. */
  lemma SpacedDefinition(name: string, toks: seq<Token>, q: nat, e: A.Expression, t: TokenStream)
    requires q + 2 < |toks| && toks[q].kind == Equal && toks[q + 1].kind == Whitespace
    requires !IsTrivia(toks[q + 2].kind)
    requires ParseAlternation(TokenStream(toks, q + 2)) == Ok(Parsed(e, t))
    requires Valid(t) && Settled(t)
    ensures RuleDefinition(name, TokenStream(toks, q)) == EndRule(t, A.Rule(name, e))
  {
    SpacedEqual(toks, q);
    ParserLaws.SettledStays(t);
  }

  /** `=` and one blank: the alternation starts two tokens on. */
  lemma SpacedEqual(toks: seq<Token>, q: nat)
    requires q + 2 < |toks| && toks[q].kind == Equal && toks[q + 1].kind == Whitespace
    requires !IsTrivia(toks[q + 2].kind)
    ensures Expect(TokenStream(toks, q), Equal) == Ok(Parsed(toks[q], TokenStream(toks, q + 1)))
    ensures SkipTrivia(TokenStream(toks, q + 1)) == TokenStream(toks, q + 2)
  {
    assert SkipTrivia(TokenStream(toks, q + 2)) == TokenStream(toks, q + 2);
  }

  /** The tokens of the text, one conjunct per token the parse looks at. */
  predicate Lexed(toks: seq<Token>) {
    && |toks| == 13
    && toks[0] == Token(RuleName, "number", 1, 1) && toks[1].kind == Whitespace
    && toks[2].kind == Equal && toks[3].kind == Whitespace
    && toks[4] == Token(Repeat, "1*", 1, 10) && toks[5] == Token(RuleName, "DIGIT", 1, 12)
    && toks[6].kind == CRLF
    && toks[7] == Token(RuleName, "DIGIT", 2, 1) && toks[8].kind == Whitespace
    && toks[9].kind == Equal && toks[10].kind == Whitespace
    && toks[11] == Token(ValueRange, "%x30-39", 2, 9) && toks[12].kind == EndOfInput
  }

  lemma SourceTokensLexed()
    ensures Lexed(SourceTokens)
  {
  }

  /** The prefix `1*`: at least one, no upper bound. */
  lemma OneOrMore(line: int, column: int)
    ensures GetRepetitionBounds(Token(Repeat, "1*", line, column)) == Ok((Some(1), None))
  {
    TokenLaws.RepeatRoundTrip(Some(1), None, line, column);
    assert TokenLaws.BoundText(Some(1)) + "*" + TokenLaws.BoundText(None) == "1*";
  }

  /** `1*DIGIT`: the repeat prefix and the name it repeats. */
  lemma RepeatParsed(toks: seq<Token>)
    requires Lexed(toks)
    ensures ParseRepetition(TokenStream(toks, 4)) == Ok(Parsed(SourceRules[0].expr, TokenStream(toks, 6)))
  {
    OneOrMore(1, 10);
    ParserLaws.LeafDispatch(TokenStream(toks, 5));
    ParserLaws.RepetitionStep(TokenStream(toks, 4), TokenStream(toks, 5), Some(1), None, A.RuleRef("DIGIT"),
      TokenStream(toks, 6));
  }

  /** The line break before `DIGIT = ` ends the first rule. */
  lemma BreakEndsRule(toks: seq<Token>)
    requires Lexed(toks)
    ensures IsAtRuleBoundary(TokenStream(toks, 6)) && Settled(TokenStream(toks, 6))
    ensures !IsElementStart(TokenStream(toks, 6)) && !Match(TokenStream(toks, 6), Slash)
  {
    assert EqualAfterBlanks(toks, 8) by {
      assert EqualAfterBlanks(toks, 9);
    }
    assert BoundaryAfterTrivia(toks, 7);
  }

  /** `1*DIGIT` is the whole expression of the first rule. */
  lemma FirstExpressionParsed(toks: seq<Token>)
    requires Lexed(toks)
    ensures IsAtRuleBoundary(TokenStream(toks, 6))
    ensures ParseAlternation(TokenStream(toks, 4)) == Ok(Parsed(SourceRules[0].expr, TokenStream(toks, 6)))
  {
    RepeatParsed(toks);
    BreakEndsRule(toks);
    SingleAlternative(TokenStream(toks, 4), SourceRules[0].expr, TokenStream(toks, 6));
  }

  /** `number = 1*DIGIT` and the line break after it. */
  lemma FirstRuleParsed(toks: seq<Token>)
    requires Lexed(toks)
    ensures IsAtRuleStart(TokenStream(toks, 0))
    ensures ParseRule(TokenStream(toks, 0)) == Ok(Parsed(SourceRules[0], TokenStream(toks, 7)))
  {
    FirstExpressionParsed(toks);
    SpacedName(toks, 0);
    SpacedDefinition("number", toks, 2, SourceRules[0].expr, TokenStream(toks, 6));
  }

  /** `%x30-39` is the whole expression of the second rule. */
  lemma SecondExpressionParsed(toks: seq<Token>)
    requires Lexed(toks)
    ensures ParseAlternation(TokenStream(toks, 11)) == Ok(Parsed(SourceRules[1].expr, TokenStream(toks, 12)))
  {
    var s := TokenStream(toks, 11);
    var t := TokenStream(toks, 12);
    ParserLaws.LeafDispatch(s);
    assert ParseRepetition(s) == Ok(Parsed(SourceRules[1].expr, t));
    SingleAlternative(s, SourceRules[1].expr, t);
  }

  /** `DIGIT = %x30-39`, closed by the end of the input. */
  lemma SecondRuleParsed(toks: seq<Token>)
    requires Lexed(toks)
    ensures IsAtRuleStart(TokenStream(toks, 7))
    ensures ParseRule(TokenStream(toks, 7)) == Ok(Parsed(SourceRules[1], TokenStream(toks, 12)))
  {
    SecondExpressionParsed(toks);
    LastSpacedRule(toks, 7, SourceRules[1]);
  }

  /** A spaced rule whose expression runs up to the end of input. */
  lemma LastSpacedRule(toks: seq<Token>, p: nat, rule: A.Rule)
    requires p + 5 < |toks| && toks[p].kind == RuleName && toks[p].value == rule.name
    requires toks[p + 1].kind == Whitespace && toks[p + 2].kind == Equal && toks[p + 3].kind == Whitespace
    requires !IsTrivia(toks[p + 4].kind) && toks[p + 5].kind == EndOfInput
    requires ParseAlternation(TokenStream(toks, p + 4)) == Ok(Parsed(rule.expr, TokenStream(toks, p + 5)))
    ensures IsAtRuleStart(TokenStream(toks, p))
    ensures ParseRule(TokenStream(toks, p)) == Ok(Parsed(rule, TokenStream(toks, p + 5)))
  {
    var t := TokenStream(toks, p + 5);
    EndOfInputEndsRule(t, rule);
    SpacedRule(toks, p, rule, t);
  }

  /** `name = expression`, blanks around the `=`, up to a settled token. */
  lemma SpacedRule(toks: seq<Token>, p: nat, rule: A.Rule, t: TokenStream)
    requires p + 4 < |toks| && toks[p].kind == RuleName && toks[p].value == rule.name
    requires toks[p + 1].kind == Whitespace && toks[p + 2].kind == Equal && toks[p + 3].kind == Whitespace
    requires !IsTrivia(toks[p + 4].kind)
    requires ParseAlternation(TokenStream(toks, p + 4)) == Ok(Parsed(rule.expr, t))
    requires Valid(t) && Settled(t)
    ensures IsAtRuleStart(TokenStream(toks, p))
    ensures ParseRule(TokenStream(toks, p)) == EndRule(t, rule)
  {
    SpacedName(toks, p);
    SpacedDefinition(rule.name, toks, p + 2, rule.expr, t);
  }

  /** On the end of input a rule ends where it stands. */
  lemma EndOfInputEndsRule(t: TokenStream, rule: A.Rule)
    requires Valid(t) && Match(t, EndOfInput)
    ensures Settled(t) && EndRule(t, rule) == Ok(Parsed(rule, t))
  {
  }

  /** From the second rule on, the loop collects it and stops at the end. */
  lemma SecondRuleCollected(toks: seq<Token>)
    requires Lexed(toks)
    ensures RuleLoop(TokenStream(toks, 7), [SourceRules[0]]) == Ok(A.RuleList(SourceRules))
  {
    SecondRuleParsed(toks);
    ParserLaws.RuleLoopStep(TokenStream(toks, 7), [SourceRules[0]], SourceRules[1], TokenStream(toks, 12));
    assert [SourceRules[0]] + [SourceRules[1]] == SourceRules;
  }

  /** Any list holding the tokens of the text parses to its two rules, in
      order. */
  lemma TokensParsed(toks: seq<Token>)
    requires Lexed(toks)
    ensures ParseRuleList(toks) == Ok(A.RuleList(SourceRules))
  {
    assert SkipLeading(Open(toks)) == TokenStream(toks, 0);
    FirstRuleParsed(toks);
    ParserLaws.RuleLoopStep(TokenStream(toks, 0), [], SourceRules[0], TokenStream(toks, 7));
    assert [] + [SourceRules[0]] == [SourceRules[0]];
    SecondRuleCollected(toks);
  }

  /** The tokens of the text parse to its two rules, in order. */
  lemma SourceParsed()
    ensures ParseRuleList(SourceTokens) == Ok(A.RuleList(SourceRules))
  {
    SourceTokensLexed();
    TokensParsed(SourceTokens);
  }

  // ---------------------------------------------------------------------
  // Compiling and validating
  // ---------------------------------------------------------------------

  /** `Abnf.Parse`: scan, parse the rule list, and convert it to a grammar;
      the exceptions of each stage are its error results. A text compiles
      exactly when it parses, every rule converts and no two names are
      equal ignoring case; a syntax error is the result unchanged. */
  function Compile(text: string): (r: Result<Grammars.Grammar, Error>)
    ensures r.Ok? ==> ParseRuleList(Scan(text)).Ok?
    ensures r.Ok? ==> Converter.ToGrammar(ParseRuleList(Scan(text)).value) == r
    ensures ParseRuleList(Scan(text)).Err? ==> r == Err(ParseRuleList(Scan(text)).error)
    ensures r.Ok? <==>
      && ParseRuleList(Scan(text)).Ok?
      && var rules := ParseRuleList(Scan(text)).value.rules;
      && (forall i :: 0 <= i < |rules| ==> Converter.Convertible(rules[i].expr))
      && (forall i, j :: 0 <= i < j < |rules| ==> Fold(rules[i].name) != Fold(rules[j].name))
  {
    var ruleList :- ParseRuleList(Scan(text));
    Converter.ToGrammar(ruleList)
  }

  /** `number = 1*DIGIT` converts to its pattern. */
  lemma RepeatedDigitConverts()
    ensures Converter.ConvertRule(SourceRules[0]) == Ok(GrammarExamples.NumberRules[0])
  {
    var digits := Patterns.Repetition(Patterns.RuleReference("DIGIT"), Some(1), None);
    assert Converter.ConvertExpression(SourceRules[0].expr) == Ok(digits);
    ArithmeticExamples.RuleConverts(SourceRules[0], digits);
  }

  /** The parsed rules convert to the number grammar's patterns. */
  lemma SourceConverts()
    ensures Converter.ConvertRules(SourceRules) == Ok(GrammarExamples.NumberRules)
  {
    RepeatedDigitConverts();
    ArithmeticExamples.DigitRuleConverts();
    assert SourceRules[1] == ParserExamples.ArithmeticRules[4];
    assert GrammarExamples.NumberRules[1] == ArithmeticExamples.ArithmeticPatterns[4];
    ArithmeticExamples.ConvertedPointwise(SourceRules, GrammarExamples.NumberRules);
  }

  /** The text compiles to the number grammar: two rules, `NUMBER` and
      `DIGIT` in its table. */
  lemma SourceCompiles()
    ensures Compile(Source) == Ok(Grammars.Grammar(GrammarExamples.NumberTable))
  {
    SourceScanned();
    SourceParsed();
    SourceConverts();
    GrammarExamples.NumberGrammarBuilds();
  }

  /** The number grammar's verdicts, for any grammar equal to it. */
  lemma NumberVerdicts(g: Grammars.Grammar)
    requires g == Grammars.Grammar(GrammarExamples.NumberTable)
    ensures |g.rules| == 2
    ensures Grammars.Validate(g, "123", "number").isSuccess
    ensures !Grammars.Validate(g, "", "number").isSuccess
    ensures !Grammars.Validate(g, "a", "number").isSuccess
    ensures Grammars.Validate(g, "1a", "number").errorPosition == 1
  {
    GrammarExamples.NumberGrammarBuilds();
    GrammarExamples.NumberAcceptsDigits();
    GrammarExamples.NumberRejectsEmpty();
    GrammarExamples.NumberRejectsLetter();
    GrammarExamples.NumberStopsAtLetter();
    assert g.rules.Keys == {"NUMBER", "DIGIT"};
  }

  /** From the text: the grammar has two rules, accepts "123", refuses the
      empty text and a letter, and stops "1a" at the letter. */
  lemma SourceValidates()
    ensures Compile(Source).Ok?
    ensures |Compile(Source).value.rules| == 2
    ensures Grammars.Validate(Compile(Source).value, "123", "number").isSuccess
    ensures !Grammars.Validate(Compile(Source).value, "", "number").isSuccess
    ensures !Grammars.Validate(Compile(Source).value, "a", "number").isSuccess
    ensures Grammars.Validate(Compile(Source).value, "1a", "number").errorPosition == 1
  {
    SourceCompiles();
    NumberVerdicts(Compile(Source).value);
  }
}
