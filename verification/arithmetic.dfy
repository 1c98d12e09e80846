/** The arithmetic grammar compiled and matched.

    `expr = term *( ( "+" / "-" ) term )`, `term = factor *( ( "*" / "/" )
    factor )`, `factor = number / "(" expr ")"`, `number = 1*DIGIT` and
    `DIGIT = %x30-39`, as the converter compiles them. Beside the compiled
    grammar stands an independent recogniser of the same language, written
    directly over the characters; the main theorem says that validating
    with the grammar accepts exactly the strings the recogniser reads to
    the end. The sample verdicts follow from the recogniser alone. */
module ArithmeticExamples {
  import opened Wrappers
  import opened Text
  import opened Patterns
  import opened Contexts
  import opened Matching
  import opened MatcherLaws
  import MatchResults
  import Grammars
  import Converter
  import ConverterLaws
  import Scanning
  import A = Ast
  import ParserExamples

  // ---------------------------------------------------------------------
  // The compiled grammar
  // ---------------------------------------------------------------------

  /** `operand *( ( op1 / op2 ) operand )` once the group is dissolved. */
  function ChainPattern(operand: string, op1: string, op2: string): Pattern {
    Sequence([RuleReference(operand), Repetition(ChainStep(operand, op1, op2), None, None)])
  }

  /** One turn of a chain: an operator, then an operand. */
  function ChainStep(operand: string, op1: string, op2: string): Pattern {
    Sequence([Alternation([Terminal(op1, false), Terminal(op2, false)]), RuleReference(operand)])
  }

  const ParenPattern: Pattern :=
    Sequence([Terminal("(", false), RuleReference("expr"), Terminal(")", false)])

  const FactorPattern: Pattern := Alternation([RuleReference("number"), ParenPattern])

  const ArithmeticPatterns: seq<GrammarRule> := [
    GrammarRule("expr", ChainPattern("term", "+", "-")),
    GrammarRule("term", ChainPattern("factor", "*", "/")),
    GrammarRule("factor", FactorPattern),
    GrammarRule("number", Repetition(RuleReference("DIGIT"), Some(1), None)),
    GrammarRule("DIGIT", CharacterRange(0x30, 0x39))
  ]

  const ArithmeticTable: RuleTable := map[
    "EXPR" := ArithmeticPatterns[0], "TERM" := ArithmeticPatterns[1], "FACTOR" := ArithmeticPatterns[2],
    "NUMBER" := ArithmeticPatterns[3], "DIGIT" := ArithmeticPatterns[4]]

  /** `%x30-39` is the range of the decimal digits. */
  lemma DigitRangeDecodes()
    ensures Converter.ConvertNumberVal("%x30-39") == Ok(CharacterRange(0x30, 0x39))
  {
    ConverterLaws.RangeRoundTrip(0x30, 0x39, 'x');
    ConverterLaws.HexByte(0x30);
    ConverterLaws.HexByte(0x39);
    assert DigitChar(3) == '3' && DigitChar(0) == '0' && DigitChar(9) == '9';
    assert "%" + ['x'] + ConverterLaws.Digits(0x30, 'x') + "-" + ConverterLaws.Digits(0x39, 'x') == "%x30-39";
  }

  lemma ConvertTwo(a: A.Expression, b: A.Expression, pa: Pattern, pb: Pattern)
    requires Converter.ConvertExpression(a) == Ok(pa) && Converter.ConvertExpression(b) == Ok(pb)
    ensures Converter.ConvertAll([a, b]) == Ok([pa, pb])
  {
    assert Converter.ConvertAll([b]) == Ok([pb]) by {
      assert [b][1..] == [];
      assert Converter.ConvertAll([]) == Ok([]);
      assert Converter.ConvertAll([b][1..]) == Ok([]);
      assert [pb] + [] == [pb];
    }
    assert [a, b][1..] == [b];
    assert [pa] + [pb] == [pa, pb];
  }

  lemma ConvertThree(a: A.Expression, b: A.Expression, c: A.Expression, pa: Pattern, pb: Pattern, pc: Pattern)
    requires Converter.ConvertExpression(a) == Ok(pa) && Converter.ConvertExpression(b) == Ok(pb)
    requires Converter.ConvertExpression(c) == Ok(pc)
    ensures Converter.ConvertAll([a, b, c]) == Ok([pa, pb, pc])
  {
    ConvertTwo(b, c, pb, pc);
    assert [a, b, c][1..] == [b, c];
    assert [pa] + [pb, pc] == [pa, pb, pc];
  }

  lemma ChainConverts(left: string, op1: string, op2: string)
    ensures Converter.ConvertExpression(ParserExamples.Chained(left, op1, op2, left)) ==
      Ok(ChainPattern(left, op1, op2))
  {
    var lits := [A.Literal(op1, false), A.Literal(op2, false)];
    ConvertTwo(lits[0], lits[1], Terminal(op1, false), Terminal(op2, false));
    var ops := A.Alternation(lits);
    var alt := Alternation([Terminal(op1, false), Terminal(op2, false)]);
    assert Converter.ConvertExpression(A.Group(ops)) == Ok(alt);
    ConvertTwo(A.Group(ops), A.RuleRef(left), alt, RuleReference(left));
    var body := A.Concatenation([A.Group(ops), A.RuleRef(left)]);
    assert Converter.ConvertExpression(body) == Ok(ChainStep(left, op1, op2));
    var rep := Repetition(ChainStep(left, op1, op2), None, None);
    assert Converter.ConvertExpression(ParserExamples.Star(body)) == Ok(rep);
    ConvertTwo(A.RuleRef(left), ParserExamples.Star(body), RuleReference(left), rep);
  }

  /** `factor = number / "(" expr ")"` compiles to its pattern. */
  lemma FactorConverts()
    ensures Converter.ConvertRule(ParserExamples.ArithmeticRules[2]) == Ok(ArithmeticPatterns[2])
  {
    ConvertThree(A.Literal("(", false), A.RuleRef("expr"), A.Literal(")", false),
                 Terminal("(", false), RuleReference("expr"), Terminal(")", false));
    var paren := A.Concatenation([A.Literal("(", false), A.RuleRef("expr"), A.Literal(")", false)]);
    assert Converter.ConvertExpression(paren) == Ok(ParenPattern);
    ConvertTwo(A.RuleRef("number"), paren, RuleReference("number"), ParenPattern);
  }

  /** A rule compiles to its name and its expression's pattern. */
  lemma RuleConverts(rule: A.Rule, p: Pattern)
    requires Converter.ConvertExpression(rule.expr) == Ok(p)
    ensures Converter.ConvertRule(rule) == Ok(GrammarRule(rule.name, p))
  {}

  lemma DigitRuleConverts()
    ensures Converter.ConvertRule(ParserExamples.ArithmeticRules[4]) == Ok(ArithmeticPatterns[4])
  {
    assert ParserExamples.ArithmeticRules[4] == A.Rule("DIGIT", A.NumberVal("%x30-39"));
    assert ArithmeticPatterns[4] == GrammarRule("DIGIT", CharacterRange(0x30, 0x39));
    DigitRangeDecodes();
    NumberRuleConverts("DIGIT", "%x30-39", CharacterRange(0x30, 0x39));
  }

  /** A rule defined by a numeric value converts to the value's pattern. */
  lemma NumberRuleConverts(name: string, v: string, p: Pattern)
    requires Converter.ConvertNumberVal(v) == Ok(p)
    ensures Converter.ConvertRule(A.Rule(name, A.NumberVal(v))) == Ok(GrammarRule(name, p))
  {
    RuleConverts(A.Rule(name, A.NumberVal(v)), p);
  }

  lemma EachRuleConverts(i: nat)
    requires i < 5
    ensures Converter.ConvertRule(ParserExamples.ArithmeticRules[i]) == Ok(ArithmeticPatterns[i])
  {
    var rules := ParserExamples.ArithmeticRules;
    if i == 0 {
      ChainConverts("term", "+", "-");
      RuleConverts(rules[0], ChainPattern("term", "+", "-"));
    } else if i == 1 {
      ChainConverts("factor", "*", "/");
      RuleConverts(rules[1], ChainPattern("factor", "*", "/"));
    } else if i == 2 {
      FactorConverts();
    } else if i == 3 {
      RuleConverts(rules[3], ArithmeticPatterns[3].pattern);
    } else {
      DigitRuleConverts();
    }
  }

  /** Rules that each compile to the pattern rule at their index compile,
      as a list, to the list of those. */
  lemma ConvertedPointwise(rules: seq<A.Rule>, ps: seq<GrammarRule>)
    requires |rules| == |ps|
    requires forall i :: 0 <= i < |rules| ==> Converter.ConvertRule(rules[i]) == Ok(ps[i])
    ensures Converter.ConvertRules(rules) == Ok(ps)
  {
    assert forall i :: 0 <= i < |rules| ==> Converter.Convertible(rules[i].expr);
  }

  /** The parsed rules compile to the patterns above, in order. */
  lemma ArithmeticConverts()
    ensures Converter.ConvertRules(ParserExamples.ArithmeticRules) == Ok(ArithmeticPatterns)
  {
    var rules := ParserExamples.ArithmeticRules;
    forall i | 0 <= i < |rules| ensures Converter.ConvertRule(rules[i]) == Ok(ArithmeticPatterns[i]) {
      EachRuleConverts(i);
    }
    ConvertedPointwise(rules, ArithmeticPatterns);
  }

  const FoldedNames: seq<string> := ["EXPR", "TERM", "FACTOR", "NUMBER", "DIGIT"]

  lemma NamesFold()
    ensures forall j :: 0 <= j < 5 ==> Fold(ArithmeticPatterns[j].name) == FoldedNames[j]
  {
    assert Fold("expr") == "EXPR" && Fold("term") == "TERM" && Fold("factor") == "FACTOR";
    assert Fold("number") == "NUMBER" && Fold("DIGIT") == "DIGIT";
  }

  lemma ArithmeticTableHolds()
    ensures NamesDistinct(ArithmeticPatterns)
    ensures HoldsPrefix(ArithmeticTable, ArithmeticPatterns, 5)
  {
    ArithmeticNamesDistinct();
    ArithmeticKeys();
    ArithmeticEntries();
  }

  lemma ArithmeticNamesDistinct()
    ensures NamesDistinct(ArithmeticPatterns)
  {
    NamesFold();
    assert forall i, j :: 0 <= i < j < 5 ==> FoldedNames[i] != FoldedNames[j];
  }

  lemma ArithmeticKeys()
    ensures ArithmeticTable.Keys == set j | 0 <= j < 5 :: Fold(ArithmeticPatterns[j].name)
  {
    NamesFold();
    var rules := ArithmeticPatterns;
    assert (set j | 0 <= j < 5 :: Fold(rules[j].name)) == set j | 0 <= j < 5 :: FoldedNames[j];
    assert (set j | 0 <= j < 5 :: FoldedNames[j]) == {"EXPR", "TERM", "FACTOR", "NUMBER", "DIGIT"} by {
      assert FoldedNames[0] == "EXPR" && FoldedNames[1] == "TERM" && FoldedNames[2] == "FACTOR";
      assert FoldedNames[3] == "NUMBER" && FoldedNames[4] == "DIGIT";
    }
  }

  lemma ArithmeticEntries()
    ensures forall j :: 0 <= j < 5 ==>
      Fold(ArithmeticPatterns[j].name) in ArithmeticTable && ArithmeticTable[Fold(ArithmeticPatterns[j].name)] == ArithmeticPatterns[j]
  {
    NamesFold();
  }

  /** The parsed arithmetic rule list becomes the grammar of the table
      above: five rules under their folded names. */
  lemma ArithmeticGrammarBuilds()
    ensures Converter.ToGrammar(A.RuleList(ParserExamples.ArithmeticRules)) ==
      Ok(Grammars.Grammar(ArithmeticTable))
  {
    ArithmeticConverts();
    ArithmeticTableHolds();
    var rules := ArithmeticPatterns;
    TableDetermined(rules, Grammars.NewGrammar(rules).value.rules, ArithmeticTable);
  }

  // ---------------------------------------------------------------------
  // A recogniser written over the characters
  // ---------------------------------------------------------------------

  /** 2 is `expr`, 1 is `term`, 0 is `factor`. */
  type Level = l: nat | l <= 2

  function RuleOf(level: Level): string {
    if level == 2 then "expr" else if level == 1 then "term" else "factor"
  }

  predicate IsOperator(level: Level, c: char) {
    if level == 2 then c == '+' || c == '-' else c == '*' || c == '/'
  }

  /** Where the longest `level` phrase from `p` ends, as a greedy reader
      that never backs up sees it; `None` when none starts at `p`. A
      factor is a run of digits or a bracketed expression; a chain is an
      operand followed by as many operator-operand turns as can be read. */
  function End(input: string, p: nat, level: Level): (r: Option<nat>)
    requires p <= |input|
    ensures r.Some? ==> p < r.value <= |input|
    decreases |input| - p, level, 0
  {
    if level == 0 then
      var n := Scanning.Run(input, p, IsDigit);
      if n > 0 then Some(p + n)
      else if p < |input| && input[p] == '(' then
        match End(input, p + 1, 2)
        case None => None
        case Some(q) => if q < |input| && input[q] == ')' then Some(q + 1) else None
      else None
    else
      match End(input, p, level - 1)
      case None => None
      case Some(q) => Some(Tail(input, q, level))
  }

  /** Where the operator-operand turns of a `level` chain from `q` end. */
  function Tail(input: string, q: nat, level: Level): (r: nat)
    requires q <= |input| && level >= 1
    ensures q <= r <= |input|
    decreases |input| - q, level, 1
  {
    if q < |input| && IsOperator(level, input[q]) then
      match End(input, q + 1, level - 1)
      case None => q
      case Some(next) => Tail(input, next, level)
    else q
  }

  /** The input is one whole expression. */
  predicate IsArithmetic(input: string) {
    End(input, 0, 2) == Some(|input|)
  }

  // ---------------------------------------------------------------------
  // The recursion stack while matching
  // ---------------------------------------------------------------------

  /** Each rule's place in the descent: a rule only refers to rules ranked
      below it at the same position. Names outside the grammar rank above
      all of them. */
  function Rank(name: string): int {
    var f := Fold(name);
    if f == "DIGIT" then 0 else if f == "NUMBER" then 1 else if f == "FACTOR" then 2
    else if f == "TERM" then 3 else if f == "EXPR" then 4 else 5
  }

  /** The context holds the arithmetic table, and every rule on the stack
      was entered before `p`, or at `p` with a rank above `k`. */
  predicate Guarded(ctx: Context, p: nat, k: int) {
    && ctx.rules == ArithmeticTable
    && forall i :: 0 <= i < |ctx.stack| ==>
         ctx.stack[i].position < p || (ctx.stack[i].position == p && Rank(ctx.stack[i].ruleName) > k)
  }

  lemma GuardLater(ctx: Context, p: nat, k: int, q: nat, k': int)
    requires Guarded(ctx, p, k) && (p < q || (p == q && k' <= k))
    ensures Guarded(ctx, q, k')
  {}

  /** A reference to a rule of rank at most `k` passes the recursion check
      and matches the rule's pattern with itself pushed, which leaves the
      stack guarded below its own rank. */
  lemma Enter(name: string, input: string, p: nat, ctx: Context)
    requires p <= |input| && Rank(name) < 5 && Guarded(ctx, p, Rank(name))
    ensures Fold(name) in ArithmeticTable
    ensures Attempt(RuleReference(name), input, p, ctx) ==
      Attempt(ArithmeticTable[Fold(name)].pattern, input, p, PushRule(ctx, name, p))
    ensures Guarded(PushRule(ctx, name, p), p, Rank(name) - 1)
  {
    assert forall i :: 0 <= i < |ctx.stack| && ctx.stack[i].position == p ==>
      !EqualsIgnoreCase(ctx.stack[i].ruleName, name);
    RuleReferenceBehaviour(name, input, p, ctx);
    var pushed := PushRule(ctx, name, p);
    assert pushed.stack == ctx.stack + [Frame(name, p)];
  }

  // ---------------------------------------------------------------------
  // Leaves
  // ---------------------------------------------------------------------

  /** A one-character terminal that is not a letter matches exactly that
      character. */
  lemma SymbolTerminal(c: char, input: string, pos: nat, ctx: Context)
    requires !IsLetter(c) && pos <= |input|
    ensures var t := Attempt(Terminal([c], false), input, pos, ctx);
      && (t.isSuccess <==> pos < |input| && input[pos] == c)
      && (t.isSuccess ==> t.position == pos + 1)
  {
    assert Attempt(Terminal([c], false), input, pos, ctx) == MatchTerminal([c], false, input, pos);
    assert Fold([c]) == [c];
    if pos < |input| {
      var folded := Fold(input[pos..]);
      assert folded[0] == Upper(input[pos]);
      assert [c] <= folded <==> folded[0] == c;
    }
  }

  /** The operator alternation of a `level` chain. */
  lemma OperatorAt(level: Level, input: string, pos: nat, ctx: Context)
    requires level >= 1 && pos <= |input|
    ensures var o := ChainStep(RuleOf(level - 1), if level == 2 then "+" else "*", if level == 2 then "-" else "/");
      var t := Attempt(o.elements[0], input, pos, ctx);
      && (t.isSuccess <==> pos < |input| && IsOperator(level, input[pos]))
      && (t.isSuccess ==> t.position == pos + 1)
  {
    var c1 := if level == 2 then '+' else '*';
    var c2 := if level == 2 then '-' else '/';
    var alts := [Terminal([c1], false), Terminal([c2], false)];
    SymbolTerminal(c1, input, pos, ctx);
    SymbolTerminal(c2, input, pos, ctx);
    AlternationSucceedsIffSomeAlternative(alts, input, pos, ctx);
    if Attempt(alts[0], input, pos, ctx).isSuccess {
      AlternationTakesFirstSuccess(alts, input, pos, ctx, 0);
    } else if Attempt(alts[1], input, pos, ctx).isSuccess {
      AlternationTakesFirstSuccess(alts, input, pos, ctx, 1);
    }
  }

  lemma DigitAt(input: string, p: nat, ctx: Context)
    requires p <= |input| && Guarded(ctx, p, 0)
    ensures var r := Attempt(RuleReference("DIGIT"), input, p, ctx);
      && (r.isSuccess <==> p < |input| && IsDigit(input[p]))
      && (r.isSuccess ==> r.position == p + 1)
  {
    assert Fold("DIGIT") == "DIGIT";
    Enter("DIGIT", input, p, ctx);
  }

  /** The loop of `1*DIGIT` reads the whole run of digits. */
  lemma {:induction false} DigitLoop(input: string, start: nat, current: nat, count: nat, ctx: Context)
    requires start <= current <= |input| && Guarded(ctx, current, 0)
    requires count + (|input| - current) < IntMax
    ensures var t := RepeatLoop(RuleReference("DIGIT"), input, start, current, count, IntMax, ctx).0;
      && t.position == current + Scanning.Run(input, current, IsDigit)
      && t.count == count + Scanning.Run(input, current, IsDigit)
    decreases |input| - current
  {
    DigitAt(input, current, ctx);
    if current < |input| && IsDigit(input[current]) {
      GuardLater(ctx, current, 0, current + 1, 0);
      DigitLoop(input, start, current + 1, count + 1, ctx);
    }
  }

  lemma NumberAt(input: string, p: nat, ctx: Context)
    requires p <= |input| < IntMax && Guarded(ctx, p, 1)
    ensures var r := Attempt(RuleReference("number"), input, p, ctx);
      var n := Scanning.Run(input, p, IsDigit);
      && (r.isSuccess <==> n > 0)
      && (r.isSuccess ==> r.position == p + n)
  {
    assert Fold("number") == "NUMBER";
    Enter("number", input, p, ctx);
    var pushed := PushRule(ctx, "number", p);
    RepetitionOutcome(RuleReference("DIGIT"), Some(1), None, input, p, pushed);
    DigitLoop(input, p, p, 0, pushed);
  }

  // ---------------------------------------------------------------------
  // The grammar reads what the recogniser reads
  // ---------------------------------------------------------------------

  function LevelPattern(level: Level): Pattern {
    if level == 2 then ChainPattern("term", "+", "-")
    else if level == 1 then ChainPattern("factor", "*", "/")
    else FactorPattern
  }

  lemma RuleOfLevel(level: Level)
    ensures Rank(RuleOf(level)) == level + 2
    ensures ArithmeticTable[Fold(RuleOf(level))].pattern == LevelPattern(level)
  {
    assert Fold("expr") == "EXPR" && Fold("term") == "TERM" && Fold("factor") == "FACTOR";
  }

  /** A reference to the `level` rule succeeds exactly where the
      recogniser finds a phrase, and ends where it does. */
  lemma {:induction false} LevelReference(input: string, p: nat, ctx: Context, level: Level)
    requires p <= |input| < IntMax && Guarded(ctx, p, level + 2)
    ensures var r := Attempt(RuleReference(RuleOf(level)), input, p, ctx);
      && (r.isSuccess <==> End(input, p, level).Some?)
      && (r.isSuccess ==> r.position == End(input, p, level).value)
    decreases |input| - p, level, 2
  {
    RuleOfLevel(level);
    Enter(RuleOf(level), input, p, ctx);
    LevelBody(input, p, PushRule(ctx, RuleOf(level), p), level);
  }

  /** The same for the rule's pattern, from a stack guarded below it. */
  lemma {:induction false} LevelBody(input: string, p: nat, ctx: Context, level: Level)
    requires p <= |input| < IntMax && Guarded(ctx, p, level + 1)
    ensures var r := Attempt(LevelPattern(level), input, p, ctx);
      && (r.isSuccess <==> End(input, p, level).Some?)
      && (r.isSuccess ==> r.position == End(input, p, level).value)
    decreases |input| - p, level, 1
  {
    if level == 0 {
      FactorBody(input, p, ctx);
    } else {
      var operand := RuleOf(level - 1);
      var op1 := if level == 2 then "+" else "*";
      var op2 := if level == 2 then "-" else "/";
      var step := ChainStep(operand, op1, op2);
      var rep := Repetition(step, None, None);
      assert LevelPattern(level) == Sequence([RuleReference(operand)] + [rep]);
      SequenceCons(RuleReference(operand), [rep], input, p, ctx);
      LevelReference(input, p, ctx, level - 1);
      if End(input, p, level - 1).Some? {
        var q := End(input, p, level - 1).value;
        SingletonSequence(rep, input, q, ctx);
        RepetitionOutcome(step, None, None, input, q, ctx);
        GuardLater(ctx, p, level + 1, q, 0);
        TailLoop(input, q, q, 0, ctx, level);
      }
    }
  }

  /** `factor`: digits first, then a bracketed expression. */
  lemma {:induction false} FactorBody(input: string, p: nat, ctx: Context)
    requires p <= |input| < IntMax && Guarded(ctx, p, 1)
    ensures var r := Attempt(FactorPattern, input, p, ctx);
      && (r.isSuccess <==> End(input, p, 0).Some?)
      && (r.isSuccess ==> r.position == End(input, p, 0).value)
    decreases |input| - p, 0, 0
  {
    var alts := [RuleReference("number"), ParenPattern];
    NumberAt(input, p, ctx);
    ParenBody(input, p, ctx);
    AlternationSucceedsIffSomeAlternative(alts, input, p, ctx);
    if Attempt(alts[0], input, p, ctx).isSuccess {
      AlternationTakesFirstSuccess(alts, input, p, ctx, 0);
    } else if Attempt(alts[1], input, p, ctx).isSuccess {
      AlternationTakesFirstSuccess(alts, input, p, ctx, 1);
    }
  }

  /** `"(" expr ")"`. */
  lemma {:induction false} ParenBody(input: string, p: nat, ctx: Context)
    requires p <= |input| < IntMax && Guarded(ctx, p, 1)
    ensures var r := Attempt(ParenPattern, input, p, ctx);
      && (r.isSuccess <==>
            p < |input| && input[p] == '(' && End(input, p + 1, 2).Some? &&
            End(input, p + 1, 2).value < |input| && input[End(input, p + 1, 2).value] == ')')
      && (r.isSuccess ==> r.position == End(input, p + 1, 2).value + 1)
    decreases |input| - p, 0, -1
  {
    var close := [Terminal(")", false)];
    assert ParenPattern == Sequence([Terminal("(", false)] + ([RuleReference("expr")] + close));
    SequenceCons(Terminal("(", false), [RuleReference("expr")] + close, input, p, ctx);
    SymbolTerminal('(', input, p, ctx);
    if p < |input| && input[p] == '(' {
      SequenceCons(RuleReference("expr"), close, input, p + 1, ctx);
      GuardLater(ctx, p, 1, p + 1, 4);
      LevelReference(input, p + 1, ctx, 2);
      if End(input, p + 1, 2).Some? {
        var q := End(input, p + 1, 2).value;
        SingletonSequence(Terminal(")", false), input, q, ctx);
        SymbolTerminal(')', input, q, ctx);
      }
    }
  }

  /** The loop of a chain's repetition takes every turn the recogniser
      takes: each turn reads at least two characters, so it never ends
      where the repetition started, and stops at the first turn that
      fails. */
  lemma {:induction false} TailLoop(input: string, start: nat, current: nat, count: nat, ctx: Context, level: Level)
    requires level >= 1 && start <= current <= |input| < IntMax
    requires Guarded(ctx, start, 0) && count <= current - start
    ensures var op1 := if level == 2 then "+" else "*";
      var op2 := if level == 2 then "-" else "/";
      RepeatLoop(ChainStep(RuleOf(level - 1), op1, op2), input, start, current, count, IntMax, ctx).0.position ==
        Tail(input, current, level)
    decreases |input| - current, level, 3
  {
    var operand := RuleOf(level - 1);
    var op1 := if level == 2 then "+" else "*";
    var op2 := if level == 2 then "-" else "/";
    var step := ChainStep(operand, op1, op2);
    var ops := step.elements[0];
    assert step.elements == [ops] + [RuleReference(operand)];
    SequenceCons(ops, [RuleReference(operand)], input, current, ctx);
    OperatorAt(level, input, current, ctx);
    if current < |input| && IsOperator(level, input[current]) {
      SingletonSequence(RuleReference(operand), input, current + 1, ctx);
      GuardLater(ctx, start, 0, current + 1, level + 1);
      LevelReference(input, current + 1, ctx, level - 1);
      if End(input, current + 1, level - 1).Some? {
        var next := End(input, current + 1, level - 1).value;
        TailLoop(input, start, next, count + 1, ctx, level);
      }
    }
  }

  // ---------------------------------------------------------------------
  // Verdicts
  // ---------------------------------------------------------------------

  /** Validating with `expr` as the start rule accepts exactly the
      expressions the recogniser reads to the end of the input. */
  lemma ValidateIsRecogniser(input: string)
    requires |input| < IntMax
    ensures Grammars.Validate(Grammars.Grammar(ArithmeticTable), input, "expr").isSuccess <==> IsArithmetic(input)
  {
    RuleOfLevel(2);
    LevelBody(input, 0, Context(ArithmeticTable, []), 2);
  }

  // ---------------------------------------------------------------------
  // The sample expressions
  // ---------------------------------------------------------------------

  lemma DigitsRecognised()
    ensures IsArithmetic("123")
  {
    var t := "123";
    assert Scanning.Run(t, 3, IsDigit) == 0;
    assert Scanning.Run(t, 0, IsDigit) == 3;
    assert End(t, 0, 0) == Some(3);
  }

  lemma SumRecognised()
    ensures IsArithmetic("1+2")
  {
    var t := "1+2";
    assert Scanning.Run(t, 1, IsDigit) == 0;
    assert Scanning.Run(t, 0, IsDigit) == 1;
    assert Scanning.Run(t, 2, IsDigit) == 1;
    assert End(t, 0, 1) == Some(1);
    assert End(t, 2, 1) == Some(3);
    assert Tail(t, 1, 2) == 3;
  }

  lemma MixedRecognised()
    ensures IsArithmetic("10*5+3")
  {
    var t := "10*5+3";
    assert Scanning.Run(t, 2, IsDigit) == 0;
    assert Scanning.Run(t, 0, IsDigit) == 2;
    assert Scanning.Run(t, 4, IsDigit) == 0;
    assert Scanning.Run(t, 3, IsDigit) == 1;
    assert Scanning.Run(t, 5, IsDigit) == 1;
    assert Tail(t, 4, 1) == 4;
    assert Tail(t, 2, 1) == 4;
    assert End(t, 0, 1) == Some(4);
    assert End(t, 5, 1) == Some(6);
    assert Tail(t, 4, 2) == 6;
  }

  lemma BracketedRecognised()
    ensures IsArithmetic("(1+2)*3")
  {
    var t := "(1+2)*3";
    assert Scanning.Run(t, 0, IsDigit) == 0;
    assert Scanning.Run(t, 1, IsDigit) == 1;
    assert Scanning.Run(t, 3, IsDigit) == 1;
    assert Scanning.Run(t, 6, IsDigit) == 1;
    assert End(t, 1, 1) == Some(2);
    assert End(t, 3, 1) == Some(4);
    assert Tail(t, 2, 2) == 4;
    assert End(t, 1, 2) == Some(4);
    assert End(t, 0, 0) == Some(5);
    assert Tail(t, 5, 1) == 7;
    assert End(t, 0, 1) == Some(7);
  }

  /** The input ends after `1+`: the last turn finds no operand, so the
      chain stops before the operator. */
  lemma TrailingOperatorRefused()
    ensures !IsArithmetic("1+")
  {
    var t := "1+";
    assert Scanning.Run(t, 1, IsDigit) == 0;
    assert Scanning.Run(t, 0, IsDigit) == 1;
    assert Scanning.Run(t, 2, IsDigit) == 0;
    assert End(t, 2, 0) == None;
    assert End(t, 0, 1) == Some(1);
    assert Tail(t, 1, 2) == 1;
  }

  /** The bracket is never closed, so no factor starts at 0. */
  lemma UnclosedBracketRefused()
    ensures !IsArithmetic("(1+2")
  {
    var t := "(1+2";
    assert Scanning.Run(t, 0, IsDigit) == 0;
    assert Scanning.Run(t, 1, IsDigit) == 1;
    assert Scanning.Run(t, 3, IsDigit) == 1;
    assert End(t, 1, 1) == Some(2);
    assert End(t, 3, 1) == Some(4);
    assert Tail(t, 2, 2) == 4;
    assert End(t, 1, 2) == Some(4);
    assert End(t, 0, 0) == None;
  }

  /** A blank is no operator: the expression ends after `1`. */
  lemma BlanksRefused()
    ensures !IsArithmetic("1 + 2")
  {
    var t := "1 + 2";
    assert Scanning.Run(t, 1, IsDigit) == 0;
    assert Scanning.Run(t, 0, IsDigit) == 1;
    assert End(t, 0, 1) == Some(1);
    assert Tail(t, 1, 2) == 1;
  }

  lemma OtherInputsRefused()
    ensures !IsArithmetic("abc") && !IsArithmetic("") && !IsArithmetic("+1")
  {
    assert Scanning.Run("abc", 0, IsDigit) == 0;
    assert End("abc", 0, 0) == None;
    assert End("", 0, 0) == None;
    assert Scanning.Run("+1", 0, IsDigit) == 0;
    assert End("+1", 0, 0) == None;
  }

  /** The arithmetic grammar, from its parsed rule list, accepts the sample
      expressions and refuses the malformed ones: a dangling operator, an
      unclosed bracket, blanks between tokens, letters, the empty text and
      a leading operator. */
  lemma SampleVerdicts()
    ensures Converter.ToGrammar(A.RuleList(ParserExamples.ArithmeticRules)) == Ok(Grammars.Grammar(ArithmeticTable))
    ensures var g := Grammars.Grammar(ArithmeticTable);
      && Grammars.Validate(g, "123", "expr").isSuccess
      && Grammars.Validate(g, "1+2", "expr").isSuccess
      && Grammars.Validate(g, "10*5+3", "expr").isSuccess
      && Grammars.Validate(g, "(1+2)*3", "expr").isSuccess
      && !Grammars.Validate(g, "1+", "expr").isSuccess
      && !Grammars.Validate(g, "(1+2", "expr").isSuccess
      && !Grammars.Validate(g, "1 + 2", "expr").isSuccess
      && !Grammars.Validate(g, "abc", "expr").isSuccess
      && !Grammars.Validate(g, "", "expr").isSuccess
      && !Grammars.Validate(g, "+1", "expr").isSuccess
  {
    ArithmeticGrammarBuilds();
    DigitsRecognised();
    ValidateIsRecogniser("123");
    SumRecognised();
    ValidateIsRecogniser("1+2");
    MixedRecognised();
    ValidateIsRecogniser("10*5+3");
    BracketedRecognised();
    ValidateIsRecogniser("(1+2)*3");
    TrailingOperatorRefused();
    ValidateIsRecogniser("1+");
    UnclosedBracketRefused();
    ValidateIsRecogniser("(1+2");
    BlanksRefused();
    ValidateIsRecogniser("1 + 2");
    OtherInputsRefused();
    ValidateIsRecogniser("abc");
    ValidateIsRecogniser("");
    ValidateIsRecogniser("+1");
  }
}
