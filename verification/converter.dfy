/** Compilation of the syntax tree into patterns, including the decoding of
    numeric values `%x`, `%d` and `%b` (RFC 5234 section 2.3). */
module Converter {
  import opened Wrappers
  import opened Text
  import opened Errors
  import opened Numbers
  import opened Patterns
  import A = Ast
  import Grammars
  import Contexts

  // ---------------------------------------------------------------------
  // Numbers
  // ---------------------------------------------------------------------

  /** The base a numeric value's letter names, ignoring case. */
  function BaseOf(letter: char): Option<nat> {
    match Upper(letter)
    case 'X' => Some(16)
    case 'D' => Some(10)
    case 'B' => Some(2)
    case _ => None
  }

  /** A `.`-separated list of values as a sequence of one-character patterns;
      the first value that does not decode is the error. */
  function CharValues(parts: seq<string>, base: nat): (r: Result<seq<Pattern>, Error>)
    ensures r.Ok? <==> forall i :: 0 <= i < |parts| ==> ToInt32(parts[i], base).Ok?
    ensures r.Ok? ==> (|r.value| == |parts| &&
      forall i :: 0 <= i < |parts| ==> r.value[i] == CharacterValue(ToInt32(parts[i], base).value))
    ensures r.Err? ==> exists i :: 0 <= i < |parts| && ToInt32(parts[i], base) == Err(r.error)
  {
    if |parts| == 0 then Ok([])
    else
      var c :- ToInt32(parts[0], base);
      var rest :- CharValues(parts[1..], base);
      Ok([CharacterValue(c)] + rest)
  }

  /** `ConvertNumberVal`: `%` and a base letter, then a range `lo-hi`, a
      `.`-separated concatenation, or a single value. A range is looked for
      before a concatenation. */
  function ConvertNumberVal(value: string): (r: Result<Pattern, Error>)
    ensures r.Ok? ==> |value| >= 2 && value[0] == '%' && BaseOf(value[1]).Some?
    ensures r.Ok? ==> (r.value.CharacterRange? || r.value.CharacterValue? ||
      (r.value.Sequence? && forall i :: 0 <= i < |r.value.elements| ==> r.value.elements[i].CharacterValue?))
  {
    if |value| < 2 || value[0] != '%' || BaseOf(value[1]).None? then
      Err(ArgumentError("Invalid number value format: " + value))
    else
      var base := BaseOf(value[1]).value;
      var rest := value[2..];
      if '-' in rest then
        var parts := Split(rest, '-');
        if |parts| != 2 then Err(ArgumentError("Invalid range format: " + value))
        else
          var min :- ToInt32(parts[0], base);
          var max :- ToInt32(parts[1], base);
          Ok(CharacterRange(min, max))
      else if '.' in rest then
        var codes :- CharValues(Split(rest, '.'), base);
        Ok(Sequence(codes))
      else
        var code :- ToInt32(rest, base);
        Ok(CharacterValue(code))
  }

  // ---------------------------------------------------------------------
  // Expressions
  // ---------------------------------------------------------------------

  /** Whether an expression compiles: it holds no prose value and every
      numeric value in it decodes. */
  predicate Convertible(e: A.Expression)
    decreases A.Size(e), 0
  {
    match e
    case Alternation(options) => AllConvertible(options)
    case Concatenation(elements) => AllConvertible(elements)
    case Repetition(_, _, element) => Convertible(element)
    case Group(inner) => Convertible(inner)
    case Option(inner) => Convertible(inner)
    case Literal(_, _) => true
    case ProseVal(_) => false
    case NumberVal(v) => ConvertNumberVal(v).Ok?
    case RuleRef(_) => true
  }

  predicate AllConvertible(es: seq<A.Expression>)
    decreases A.SizeAll(es), 1
  {
    forall i :: 0 <= i < |es| ==> Convertible(es[i])
  }

  /** `ConvertExpression`: each syntax node becomes the pattern of the same
      shape; a group is its inner pattern, an option is a repetition of
      zero or one, and a prose value is refused. */
  function ConvertExpression(e: A.Expression): (r: Result<Pattern, Error>)
    ensures r.Ok? <==> Convertible(e)
    decreases A.Size(e), 0
  {
    match e
    case Alternation(options) =>
      var ps :- ConvertAll(options);
      Ok(Alternation(ps))
    case Concatenation(elements) =>
      var ps :- ConvertAll(elements);
      Ok(Sequence(ps))
    case Repetition(min, max, element) =>
      var p :- ConvertExpression(element);
      Ok(Repetition(p, min, max))
    case Group(inner) => ConvertExpression(inner)
    case Option(inner) =>
      var p :- ConvertExpression(inner);
      Ok(Repetition(p, Some(0), Some(1)))
    case Literal(value, caseSensitive) => Ok(Terminal(value, caseSensitive))
    case ProseVal(value) => Err(NotSupported("Prose values are not supported for validation: '" + value + "'"))
    case NumberVal(value) => ConvertNumberVal(value)
    case RuleRef(name) => Ok(RuleReference(name))
  }

  /** The expressions converted in order; the first failure is the result. */
  function ConvertAll(es: seq<A.Expression>): (r: Result<seq<Pattern>, Error>)
    ensures r.Ok? <==> AllConvertible(es)
    ensures r.Ok? ==> (|r.value| == |es| &&
      forall i :: 0 <= i < |es| ==> ConvertExpression(es[i]) == Ok(r.value[i]))
    ensures r.Err? ==> exists i :: (0 <= i < |es| && ConvertExpression(es[i]) == Err(r.error) &&
      forall j :: 0 <= j < i ==> ConvertExpression(es[j]).Ok?)
    decreases A.SizeAll(es), 1
  {
    if |es| == 0 then Ok([])
    else
      A.SizePositive(es[0]);
      var first := ConvertExpression(es[0]);
      match first
      case Err(error) => Err(error)
      case Ok(p) =>
        match ConvertAll(es[1..])
        case Err(error) => Err(error)
        case Ok(ps) => Ok([p] + ps)
  }

  /** `ConvertRule`. */
  function ConvertRule(rule: A.Rule): (r: Result<GrammarRule, Error>)
    ensures r.Ok? <==> Convertible(rule.expr)
    ensures r.Ok? ==> r.value.name == rule.name && ConvertExpression(rule.expr) == Ok(r.value.pattern)
  {
    var p :- ConvertExpression(rule.expr);
    Ok(GrammarRule(rule.name, p))
  }

  /** The rules converted in order. */
  function ConvertRules(rules: seq<A.Rule>): (r: Result<seq<GrammarRule>, Error>)
    ensures r.Ok? <==> forall i :: 0 <= i < |rules| ==> Convertible(rules[i].expr)
    ensures r.Ok? ==> (|r.value| == |rules| &&
      forall i :: 0 <= i < |rules| ==> ConvertRule(rules[i]) == Ok(r.value[i]))
  {
    if |rules| == 0 then Ok([])
    else
      var first :- ConvertRule(rules[0]);
      var rest :- ConvertRules(rules[1..]);
      Ok([first] + rest)
  }

  /** `ToGrammar`: the converted rules, in order and under their own names,
      made into a grammar; two names equal ignoring case are refused as the
      grammar refuses them. */
  function ToGrammar(ruleList: A.RuleList): (r: Result<Grammars.Grammar, Error>)
    ensures r.Ok? <==>
      && (forall i :: 0 <= i < |ruleList.rules| ==> Convertible(ruleList.rules[i].expr))
      && (forall i, j :: 0 <= i < j < |ruleList.rules| ==>
            Fold(ruleList.rules[i].name) != Fold(ruleList.rules[j].name))
  {
    var rules :- ConvertRules(ruleList.rules);
    assert forall i :: 0 <= i < |rules| ==> rules[i].name == ruleList.rules[i].name;
    Grammars.NewGrammar(rules)
  }

  /** Every rule of the list is found in the grammar under its own name,
      holding its converted expression. */
  lemma ToGrammarKeepsRules(ruleList: A.RuleList, g: Grammars.Grammar, i: int)
    requires ToGrammar(ruleList) == Ok(g)
    requires 0 <= i < |ruleList.rules|
    ensures ConvertRule(ruleList.rules[i]).Ok?
    ensures Grammars.TryGetRule(g, ruleList.rules[i].name) == Some(ConvertRule(ruleList.rules[i]).value)
  {
    var rules := ConvertRules(ruleList.rules).value;
    assert Grammars.NewGrammar(rules) == Ok(g);
    assert rules[i].name == ruleList.rules[i].name;
    Grammars.GrammarLookup(rules, g, rules[i].name);
  }
}
