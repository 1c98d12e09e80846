/** Concrete token lists and what the parser makes of them: the rule list
    of the arithmetic grammar, and two ways a rule list is refused. */
module ParserExamples {
  import opened Wrappers
  import opened Errors
  import opened Tokens
  import opened TokenStreams
  import opened Parsing
  import opened ParserLaws
  import A = Ast

  // ---------------------------------------------------------------------
  // The arithmetic grammar
  // ---------------------------------------------------------------------

  /** `*( x )` as the parser builds it: no bounds, one group. */
  function Star(inner: A.Expression): A.Expression {
    A.Repetition(None, None, A.Group(inner))
  }

  /** `left *( ( op1 / op2 ) right )`. */
  function Chained(left: string, op1: string, op2: string, right: string): A.Expression {
    A.Concatenation([
      A.RuleRef(left),
      Star(A.Concatenation([
        A.Group(A.Alternation([A.Literal(op1, false), A.Literal(op2, false)])),
        A.RuleRef(right)]))])
  }

  /** `expr`, `term`, `factor`, `number` and `DIGIT`, as parsed. */
  const ArithmeticRules: seq<A.Rule> := [
    A.Rule("expr", Chained("term", "+", "-", "term")),
    A.Rule("term", Chained("factor", "*", "/", "factor")),
    A.Rule("factor", A.Alternation([
      A.RuleRef("number"),
      A.Concatenation([A.Literal("(", false), A.RuleRef("expr"), A.Literal(")", false)])])),
    A.Rule("number", A.Repetition(Some(1), None, A.RuleRef("DIGIT"))),
    A.Rule("DIGIT", A.NumberVal("%x30-39"))
  ]

  lemma TwoRepetitions(a: A.Expression, b: A.Expression)
    requires IsRepetitionForm(a) && IsRepetitionForm(b)
    ensures RepetitionForms([a, b]) && IsConcatenationForm(A.Concatenation([a, b]))
  {
    assert [a, b][1..] == [b];
    assert [b][1..] == [];
  }

  lemma ThreeRepetitions(a: A.Expression, b: A.Expression, c: A.Expression)
    requires IsRepetitionForm(a) && IsRepetitionForm(b) && IsRepetitionForm(c)
    ensures IsConcatenationForm(A.Concatenation([a, b, c]))
  {
    TwoRepetitions(b, c);
    assert [a, b, c][1..] == [b, c];
  }

  lemma TwoOptions(a: A.Expression, b: A.Expression)
    requires IsConcatenationForm(a) && IsConcatenationForm(b)
    ensures IsAlternationForm(A.Alternation([a, b]))
  {
    assert [b][1..] == [];
    assert ConcatenationForms([b]);
    assert [a, b][1..] == [b];
    assert ConcatenationForms([a, b]);
  }

  lemma ChainedForm(left: string, op1: string, op2: string, right: string)
    ensures IsAlternationForm(Chained(left, op1, op2, right))
  {
    var ops := A.Alternation([A.Literal(op1, false), A.Literal(op2, false)]);
    assert IsRepetitionForm(A.Literal(op1, false)) && IsRepetitionForm(A.Literal(op2, false));
    TwoOptions(A.Literal(op1, false), A.Literal(op2, false));
    assert IsRepetitionForm(A.Group(ops));
    var body := A.Concatenation([A.Group(ops), A.RuleRef(right)]);
    TwoRepetitions(A.Group(ops), A.RuleRef(right));
    assert IsRepetitionForm(Star(body));
    TwoRepetitions(A.RuleRef(left), Star(body));
  }

  lemma ArithmeticForms()
    ensures RuleForms(ArithmeticRules)
  {
    ChainedForm("term", "+", "-", "term");
    ChainedForm("factor", "*", "/", "factor");
    ThreeRepetitions(A.Literal("(", false), A.RuleRef("expr"), A.Literal(")", false));
    var paren := A.Concatenation([A.Literal("(", false), A.RuleRef("expr"), A.Literal(")", false)]);
    assert IsConcatenationForm(A.RuleRef("number"));
    TwoOptions(A.RuleRef("number"), paren);
    assert IsAlternationForm(ArithmeticRules[3].expr);
    assert IsAlternationForm(ArithmeticRules[4].expr);
  }

  /** The printed token form of the five arithmetic rules, one rule per
      line, parses back to them in order. The scan of the grammar's text
      is not the subject here. */
  lemma ArithmeticRuleList()
    ensures ParseRuleList(PrintRules(ArithmeticRules)) == Ok(A.RuleList(ArithmeticRules))
    ensures |ArithmeticRules| == 5
  {
    ArithmeticForms();
    RuleListRoundTrip(ArithmeticRules);
  }

  // ---------------------------------------------------------------------
  // Refusals
  // ---------------------------------------------------------------------

  /** A token that is neither trivia, a line break nor the start of a
      definition stops the rule list. */
  lemma StrayTokenRefused()
    ensures ParseRuleList([Tok(Equal, "="), Tok(EndOfInput, "")]) ==
      Err(SyntaxError("Expected rule name but found Equal", 1, 1))
  {
    var toks := [Tok(Equal, "="), Tok(EndOfInput, "")];
    var s := Open(toks);
    assert SkipLeading(s) == s;
    assert !IsAtRuleStart(s) by {
      assert !DefinitionAfterTrivia(toks, 0);
    }
    assert Current(s) == Tok(Equal, "=");
    assert !Match(s, EndOfInput) && !IsSeparator(s);
    assert KindName(Equal) == "Equal";
    assert ParseRuleList(toks) == RuleLoop(s, []);
    assert "Expected rule name but found " + "Equal" == "Expected rule name but found Equal";
    assert RuleLoop(s, []) == Err(SyntaxError("Expected rule name but found Equal", 1, 1));
  }

  /** `a = b`, a line break, then ` c = d`. */
  const IndentedTokens: seq<Token> :=
    [Tok(RuleName, "a"), Tok(Equal, "="), Tok(RuleName, "b"), Tok(CRLF, "\r\n"),
     Tok(Whitespace, " "), Tok(RuleName, "c"), Tok(Equal, "="), Tok(RuleName, "d"),
     Tok(EndOfInput, "")]

  /** The line break after `a = b` ends the rule, since a definition
      follows the indentation. */
  lemma IndentedFirstRule()
    ensures ParseRule(TokenStream(IndentedTokens, 0)) ==
      Ok(Parsed(A.Rule("a", A.RuleRef("b")), TokenStream(IndentedTokens, 4)))
  {
    var rule := A.Rule("a", A.RuleRef("b"));
    IndentedBreak();
    IndentedReference();
    assert IsAlternationForm(rule.expr);
    RuleReadBack(rule, IndentedTokens, 0, 3);
  }

  /** The third token is the printed reference `b`. */
  lemma IndentedReference()
    ensures At(IndentedTokens, 2, Print(A.RuleRef("b")))
  {
    assert Print(A.RuleRef("b")) == [Tok(RuleName, "b")];
    assert IndentedTokens[2..3] == [Tok(RuleName, "b")];
  }

  /** The line break after `a = b` is a rule boundary. */
  lemma IndentedBreak()
    ensures Settled(TokenStream(IndentedTokens, 3)) && IsAtRuleBoundary(TokenStream(IndentedTokens, 3))
    ensures !IsElementStart(TokenStream(IndentedTokens, 3)) && !Match(TokenStream(IndentedTokens, 3), Slash)
  {
    var toks := IndentedTokens;
    assert EqualAfterBlanks(toks, 6);
    assert DefinitionAfterTrivia(toks, 5);
    assert BoundaryAfterTrivia(toks, 4);
  }

  /** On the indentation a definition starts, but no rule name stands. */
  lemma IndentedSecondRule()
    ensures IsAtRuleStart(TokenStream(IndentedTokens, 4))
    ensures ParseRule(TokenStream(IndentedTokens, 4)) ==
      Err(SyntaxError("Expected RuleName but found Whitespace", 1, 1))
  {
    var toks := IndentedTokens;
    assert DefinitionAfterTrivia(toks, 4) by {
      assert EqualAfterBlanks(toks, 6);
      assert DefinitionAfterTrivia(toks, 5);
    }
    var t := TokenStream(toks, 4);
    assert Current(t) == Tok(Whitespace, " ");
    BlankForName(t);
  }

  /** A rule that starts on a blank is refused: a name must come first. */
  lemma BlankForName(t: TokenStream)
    requires Valid(t) && Current(t).kind == Whitespace
    ensures ParseRule(t) == Err(SyntaxError("Expected RuleName but found Whitespace", Current(t).line, Current(t).column))
  {
    assert KindName(RuleName) == "RuleName" && KindName(Whitespace) == "Whitespace";
    assert "Expected " + "RuleName" + " but found " + "Whitespace" == "Expected RuleName but found Whitespace";
  }

  /** The indented second rule: the break ends `a`, and the rule list then
      stands on the indentation, where `Expect(RuleName)` refuses it. */
  lemma IndentedRuleRefused()
    ensures ParseRuleList(IndentedTokens) ==
      Err(SyntaxError("Expected RuleName but found Whitespace", 1, 1))
  {
    var toks := IndentedTokens;
    var s := Open(toks);
    assert SkipLeading(s) == s;
    assert IsAtRuleStart(s) by {
      assert EqualAfterBlanks(toks, 1);
    }
    IndentedFirstRule();
    RuleLoopStep(s, [], A.Rule("a", A.RuleRef("b")), TokenStream(toks, 4));
    IndentedSecondRule();
    var t := TokenStream(toks, 4);
    assert !Match(t, EndOfInput);
  }
}
