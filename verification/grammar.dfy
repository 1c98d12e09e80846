/** A complete grammar: named rules in a case-insensitive table, and
    validation of a whole input against a start rule. */
module Grammars {
  import opened Wrappers
  import opened Text
  import opened Errors
  import MatchResults
  import opened Patterns
  import opened Contexts
  import opened Matching
  import opened Validation

  datatype Grammar = Grammar(rules: RuleTable)

  /** `new Grammar(rules)`: fails when two rule names are equal ignoring
      case, as the dictionary it builds refuses a repeated key. */
  function NewGrammar(rules: seq<GrammarRule>): (r: Result<Grammar, Error>)
    ensures r.Ok? <==> NamesDistinct(rules)
    ensures r.Ok? ==> HoldsPrefix(r.value.rules, rules, |rules|)
  {
    var table :- BuildTable(rules);
    Ok(Grammar(table))
  }

  /** `Grammar.TryGetRule`: the rule of that name, ignoring case. */
  function TryGetRule(g: Grammar, name: string): (r: Option<GrammarRule>)
    ensures r.Some? <==> Fold(name) in g.rules
    ensures r.Some? ==> r.value == g.rules[Fold(name)]
  {
    Contexts.TryGetRule(g.rules, name)
  }

  /** A grammar built from a rule list finds each listed rule under any
      spelling of its name that differs only in case, and nothing else. */
  lemma GrammarLookup(rules: seq<GrammarRule>, g: Grammar, name: string)
    requires NewGrammar(rules) == Ok(g)
    ensures forall i :: 0 <= i < |rules| && EqualsIgnoreCase(rules[i].name, name) ==>
      TryGetRule(g, name) == Some(rules[i])
    ensures TryGetRule(g, name).None? <==>
      forall i :: 0 <= i < |rules| ==> !EqualsIgnoreCase(rules[i].name, name)
  {
    LookupIgnoresCase(rules, g.rules, name);
  }

  /** The start rule's pattern matched from the start of the input with a
      fresh context (the table of the grammar's rules, an empty stack). */
  function StartMatch(g: Grammar, input: string, start: string): MatchResults.MatchResult
    requires Fold(start) in g.rules
  {
    Match(g.rules[Fold(start)].pattern, input, 0, Context(g.rules, [])).result
  }

  /** `Grammar.Validate`. A failed match is reported where it got furthest;
      a match that stops early is reported where it stopped, naming the
      rest of the input. */
  function Validate(g: Grammar, input: string, start: string): (v: Validation.ValidationResult)
    ensures v.isSuccess <==>
      Fold(start) in g.rules && StartMatch(g, input, start).isSuccess
        && StartMatch(g, input, start).position == |input|
    ensures 0 <= v.errorPosition <= |input|
    ensures Fold(start) !in g.rules ==> v == Failure(0, "Start rule '" + start + "' not found in grammar")
    ensures Fold(start) in g.rules && !StartMatch(g, input, start).isSuccess ==>
      v.errorPosition == StartMatch(g, input, start).furthestPosition &&
      v.errorMessage == StartMatch(g, input, start).furthestErrorMessage
    ensures Fold(start) in g.rules && StartMatch(g, input, start).isSuccess && !v.isSuccess ==>
      var stop := StartMatch(g, input, start).position;
      stop < |input| && v.errorPosition == stop &&
      v.errorMessage == "Matched successfully but " + IntToString(|input| - stop) +
                        " character(s) remaining: '" + input[stop..] + "'"
  {
    match TryGetRule(g, start)
    case None => Failure(0, "Start rule '" + start + "' not found in grammar")
    case Some(rule) =>
      var m := Match(rule.pattern, input, 0, Context(g.rules, [])).result;
      if !m.isSuccess then Failure(m.furthestPosition, m.furthestErrorMessage)
      else if m.position < |input| then
        Failure(m.position, "Matched successfully but " + IntToString(|input| - m.position) +
                            " character(s) remaining: '" + input[m.position..] + "'")
      else Success()
  }

  /** `Grammar.TryValidate`: the same verdict, with a 1-based position. */
  function TryValidate(g: Grammar, input: string, start: string): (r: (bool, int, string))
    ensures r.0 <==> Validate(g, input, start).isSuccess
    ensures r.0 ==> r.1 == 0 && r.2 == ""
    ensures !r.0 ==> 1 <= r.1 <= |input| + 1
    ensures !r.0 ==> r.1 == Validate(g, input, start).errorPosition + 1 &&
                     r.2 == Validate(g, input, start).errorMessage
  {
    var v := Validate(g, input, start);
    if v.isSuccess then (true, 0, "") else (false, v.errorPosition + 1, v.errorMessage)
  }
}
