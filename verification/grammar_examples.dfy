/** Concrete grammars and their verdicts. */
module GrammarExamples {
  import opened Wrappers
  import opened Text
  import opened Patterns
  import opened Contexts
  import opened Matching
  import MatchResults
  import opened Validation
  import opened Grammars
  import opened MatcherLaws

  /** `number = 1*DIGIT` with `DIGIT = %x30-39`. */
  const NumberRules: seq<GrammarRule> := [
    GrammarRule("number", Repetition(RuleReference("DIGIT"), Some(1), None)),
    GrammarRule("DIGIT", CharacterRange(0x30, 0x39))
  ]

  const NumberTable: RuleTable := map["NUMBER" := NumberRules[0], "DIGIT" := NumberRules[1]]

  lemma NumberGrammarBuilds()
    ensures NewGrammar(NumberRules) == Ok(Grammar(NumberTable))
  {
    assert Fold("number") == "NUMBER";
    assert Fold("DIGIT") == "DIGIT";
    assert NamesDistinct(NumberRules);
    assert HoldsPrefix(NumberTable, NumberRules, 2);
    TableDetermined(NumberRules, NewGrammar(NumberRules).value.rules, NumberTable);
  }

  /** One digit is a number. */
  lemma NumberAcceptsOneDigit()
    ensures NewGrammar(NumberRules).Ok?
    ensures Validate(NewGrammar(NumberRules).value, "1", "number").isSuccess
  {
    NumberGrammarBuilds();
    var g := NewGrammar(NumberRules).value;
    assert Fold("number") == "NUMBER";
    assert Fold("DIGIT") == "DIGIT";
    assert g.rules == map["NUMBER" := NumberRules[0], "DIGIT" := NumberRules[1]];
  }

  /** Several digits are a number. */
  lemma NumberAcceptsDigits()
    ensures NewGrammar(NumberRules).Ok?
    ensures Validate(NewGrammar(NumberRules).value, "123", "number").isSuccess
  {
    NumberGrammarBuilds();
    var g := NewGrammar(NumberRules).value;
    assert Fold("number") == "NUMBER";
    assert Fold("DIGIT") == "DIGIT";
    assert g.rules == map["NUMBER" := NumberRules[0], "DIGIT" := NumberRules[1]];
  }

  /** The empty text is not: one digit is the minimum. */
  lemma NumberRejectsEmpty()
    ensures NewGrammar(NumberRules).Ok?
    ensures !Validate(NewGrammar(NumberRules).value, "", "number").isSuccess
  {
    NumberGrammarBuilds();
    var g := NewGrammar(NumberRules).value;
    assert Fold("number") == "NUMBER";
    assert Fold("DIGIT") == "DIGIT";
    assert g.rules == map["NUMBER" := NumberRules[0], "DIGIT" := NumberRules[1]];
  }

  /** A letter is not. */
  lemma NumberRejectsLetter()
    ensures NewGrammar(NumberRules).Ok?
    ensures !Validate(NewGrammar(NumberRules).value, "a", "number").isSuccess
  {
    NumberGrammarBuilds();
    var g := NewGrammar(NumberRules).value;
    assert Fold("number") == "NUMBER";
    assert Fold("DIGIT") == "DIGIT";
    assert g.rules == map["NUMBER" := NumberRules[0], "DIGIT" := NumberRules[1]];
  }

  /** A digit then a letter stops at the letter. */
  lemma NumberStopsAtLetter()
    ensures NewGrammar(NumberRules).Ok?
    ensures Validate(NewGrammar(NumberRules).value, "1a", "number").errorPosition == 1
  {
    NumberGrammarBuilds();
    var g := NewGrammar(NumberRules).value;
    assert Fold("number") == "NUMBER";
    assert Fold("DIGIT") == "DIGIT";
    assert g.rules == map["NUMBER" := NumberRules[0], "DIGIT" := NumberRules[1]];
  }

  /** `r = r "x" / "y"`: the recursion guard cuts the inner reference at
      the same position, so the rule matches "y" and "yx" and nothing longer. */
  const RecursiveBranch: Pattern := Sequence([RuleReference("r"), Terminal("x", false)])
  const BaseBranch: Pattern := Terminal("y", false)
  const LeftRecursiveRules: seq<GrammarRule> := [
    GrammarRule("r", Alternation([RecursiveBranch, BaseBranch]))
  ]
  const LeftRecursiveTable: RuleTable := map["R" := LeftRecursiveRules[0]]
  const LeftRecursionMessage: string := "Left recursion detected in rule 'r'"

  lemma LeftRecursiveGrammarBuilds()
    ensures NewGrammar(LeftRecursiveRules) == Ok(Grammar(LeftRecursiveTable))
  {
    assert Fold("r") == "R";
    assert NamesDistinct(LeftRecursiveRules);
    assert HoldsPrefix(LeftRecursiveTable, LeftRecursiveRules, 1);
    TableDetermined(LeftRecursiveRules, NewGrammar(LeftRecursiveRules).value.rules, LeftRecursiveTable);
  }

  /** One level down, with `(r, 0)` already on the stack: the recursive
      branch is cut, and the rule matches a leading "y" or reports the
      recursion (it ties with the base branch's failure and comes first). */
  lemma InnerRule(input: string)
    requires |input| >= 1
    ensures var inner := Context(LeftRecursiveTable, [Frame("r", 0)]);
      Attempt(LeftRecursiveRules[0].pattern, input, 0, inner) ==
        if Upper(input[0]) == 'Y' then MatchResults.Success(1) else MatchResults.Failure(0, LeftRecursionMessage)
  {
    var inner := Context(LeftRecursiveTable, [Frame("r", 0)]);
    var alts := [RecursiveBranch, BaseBranch];
    assert LeftRecursiveRules[0].pattern == Alternation(alts);
    RecursiveBranchCut(input);
    LetterTerminal('y', input, 0, inner);
    var y := Attempt(BaseBranch, input, 0, inner);
    if !y.isSuccess {
      assert Attempt(alts[0], input, 0, inner).furthestPosition == 0;
      assert Attempt(alts[1], input, 0, inner).furthestPosition == 0;
      AlternationReportsFurthest(alts, input, 0, inner);
      var k :| EarliestFurthest(alts, input, 0, inner, k) &&
        Attempt(Alternation(alts), input, 0, inner) == Attempt(alts[k], input, 0, inner);
      assert EarliestFurthest(alts, input, 0, inner, 0);
      EarliestFurthestUnique(alts, input, 0, inner, k, 0);
    } else {
      assert FirstSuccess(alts, input, 0, inner, 1);
      AlternationTakesFirstSuccess(alts, input, 0, inner, 1);
    }
  }

  lemma RecursiveBranchCut(input: string)
    ensures var inner := Context(LeftRecursiveTable, [Frame("r", 0)]);
      Attempt(RecursiveBranch, input, 0, inner) == MatchResults.Failure(0, LeftRecursionMessage)
  {
    var inner := Context(LeftRecursiveTable, [Frame("r", 0)]);
    assert Fold("r") == "R";
    assert IsInRecursionChain(inner.stack, "r", 0);
    RuleReferenceBehaviour("r", input, 0, inner);
    assert [RuleReference("r"), Terminal("x", false)] == [RuleReference("r")] + [Terminal("x", false)];
    SequenceCons(RuleReference("r"), [Terminal("x", false)], input, 0, inner);
  }

  /** A one-letter case-insensitive terminal matches that letter in either case. */
  lemma LetterTerminal(letter: char, input: string, pos: nat, ctx: Context)
    requires 'a' <= letter <= 'z' && pos <= |input|
    ensures var t := Attempt(Terminal([letter], false), input, pos, ctx);
      && (t.isSuccess <==> pos < |input| && Upper(input[pos]) == Upper(letter))
      && (t.isSuccess ==> t == MatchResults.Success(pos + 1))
      && (!t.isSuccess ==> t.furthestPosition == pos)
  {
    var t := Attempt(Terminal([letter], false), input, pos, ctx);
    assert t == MatchTerminal([letter], false, input, pos);
    assert Fold([letter]) == [Upper(letter)];
    if pos < |input| {
      var folded := Fold(input[pos..]);
      assert folded[0] == Upper(input[pos]);
      assert [Upper(letter)] <= folded <==> folded[0] == Upper(letter);
    }
  }

  /** The rule itself, from an empty stack: "y" then, if present, "x". */
  lemma OuterRule(input: string)
    requires |input| >= 1
    ensures Attempt(LeftRecursiveRules[0].pattern, input, 0, Context(LeftRecursiveTable, [])) ==
      if Upper(input[0]) != 'Y' then MatchResults.Failure(0, LeftRecursionMessage)
      else if |input| >= 2 && Upper(input[1]) == 'X' then MatchResults.Success(2)
      else MatchResults.Success(1)
  {
    var outer := Context(LeftRecursiveTable, []);
    var inner := Context(LeftRecursiveTable, [Frame("r", 0)]);
    var alts := [RecursiveBranch, BaseBranch];
    assert LeftRecursiveRules[0].pattern == Alternation(alts);
    assert Fold("r") == "R";
    assert !IsInRecursionChain(outer.stack, "r", 0);
    assert PushRule(outer, "r", 0) == inner;
    RuleReferenceBehaviour("r", input, 0, outer);
    InnerRule(input);
    assert [RuleReference("r"), Terminal("x", false)] == [RuleReference("r")] + [Terminal("x", false)];
    SequenceCons(RuleReference("r"), [Terminal("x", false)], input, 0, outer);
    LetterTerminal('y', input, 0, outer);
    if Upper(input[0]) == 'Y' {
      SingletonSequence(Terminal("x", false), input, 1, outer);
      LetterTerminal('x', input, 1, outer);
      if |input| >= 2 && Upper(input[1]) == 'X' {
        assert FirstSuccess(alts, input, 0, outer, 0);
        AlternationTakesFirstSuccess(alts, input, 0, outer, 0);
      } else {
        assert FirstSuccess(alts, input, 0, outer, 1);
        AlternationTakesFirstSuccess(alts, input, 0, outer, 1);
      }
    } else {
      assert Attempt(alts[0], input, 0, outer).furthestPosition == 0;
      assert Attempt(alts[1], input, 0, outer).furthestPosition == 0;
      AlternationReportsFurthest(alts, input, 0, outer);
      var k :| EarliestFurthest(alts, input, 0, outer, k) &&
        Attempt(Alternation(alts), input, 0, outer) == Attempt(alts[k], input, 0, outer);
      assert EarliestFurthest(alts, input, 0, outer, 0);
      EarliestFurthestUnique(alts, input, 0, outer, k, 0);
    }
  }

  /** "y" is accepted: only the base branch matches all of it. */
  lemma LeftRecursionAcceptsY()
    ensures Validate(Grammar(LeftRecursiveTable), "y", "r").isSuccess
  {
    assert Fold("r") == "R";
    OuterRule("y");
  }

  /** "yx" is accepted: one level of recursion is all the guard allows. */
  lemma LeftRecursionAcceptsYX()
    ensures Validate(Grammar(LeftRecursiveTable), "yx", "r").isSuccess
  {
    assert Fold("r") == "R";
    OuterRule("yx");
  }

  /** On "yxx" the rule stops after two characters. */
  lemma YxxStopsAtTwo()
    ensures Match(LeftRecursiveRules[0].pattern, "yxx", 0, Context(LeftRecursiveTable, [])).result ==
      MatchResults.Success(2)
  {
    OuterRule("yxx");
  }

  lemma OneRemainingMessage()
    ensures "Matched successfully but " + IntToString(1) + " character(s) remaining: '" + "x" + "'" ==
      "Matched successfully but 1 character(s) remaining: 'x'"
  {
    assert IntToString(1) == "1";
  }

  /** "yxx" is rejected for its unconsumed tail, not for the recursion. */
  lemma LeftRecursionRejectsYXX()
    ensures Validate(Grammar(LeftRecursiveTable), "yxx", "r") ==
      Failure(2, "Matched successfully but 1 character(s) remaining: 'x'")
  {
    assert Fold("r") == "R";
    YxxStopsAtTwo();
    OneRemainingMessage();
    assert Grammars.TryGetRule(Grammar(LeftRecursiveTable), "r") == Some(LeftRecursiveRules[0]);
    assert "yxx"[2..] == "x";
  }

  /** "x" is rejected with the recursion diagnostic. */
  lemma LeftRecursionRejectsX()
    ensures Validate(Grammar(LeftRecursiveTable), "x", "r") == Failure(0, LeftRecursionMessage)
  {
    assert Fold("r") == "R";
    OuterRule("x");
  }

  /** `0*3("a" / "")` on "a": after the first iteration the empty
      alternative keeps succeeding one character past the repetition's
      start, so the loop runs on to its maximum without consuming more. */
  lemma ZeroWidthAfterProgress()
    ensures var p := Repetition(Alternation([Terminal("a", false), Sequence([])]), None, Some(3));
      var ctx := Context(map[], []);
      && RepeatLoop(p.element, "a", 0, 0, 0, 3, ctx).0 == Tally(1, 3, None)
      && Match(p, "a", 0, ctx).result == MatchResults.Success(1)
  {
    var p := Repetition(Alternation([Terminal("a", false), Sequence([])]), None, Some(3));
    var ctx := Context(map[], []);
    assert p.max.GetOr(IntMax) == 3;
    assert RepeatLoop(p.element, "a", 0, 0, 0, 3, ctx).0 == Tally(1, 3, None);
  }
}
