/** The abstract syntax tree the parser builds from ABNF text: a list of
    rules, each naming one expression of nine kinds (RFC 5234 section 4). */
module Ast {
  import Wrappers

  datatype Expression =
    /** `a / b / c`: the options in source order. */
    | Alternation(options: seq<Expression>)
    /** `a b c`: the elements in source order. */
    | Concatenation(elements: seq<Expression>)
    /** `min*max element`; either bound may be absent. */
    | Repetition(min: Wrappers.Option<int>, max: Wrappers.Option<int>, element: Expression)
    /** `( inner )`. */
    | Group(inner: Expression)
    /** `[ inner ]`. */
    | Option(inner: Expression)
    /** A quoted string, case-insensitive unless marked. */
    | Literal(value: string, isCaseSensitive: bool)
    /** `<prose>`. */
    | ProseVal(value: string)
    /** `%x41`, `%d65`, `%x41-5A`, `%x41.42`, or a bare number, as written. */
    | NumberVal(value: string)
    /** A use of a rule by name. */
    | RuleRef(name: string)

  datatype Rule = Rule(name: string, expr: Expression)

  /** The rules in source order; two rules may share a name. */
  datatype RuleList = RuleList(rules: seq<Rule>)

  /** `new Literal(value)`: without the flag a literal ignores case. */
  function NewLiteral(value: string): (e: Expression)
    ensures e.Literal? && e.value == value && !e.isCaseSensitive
  {
    Literal(value, false)
  }

  /** The number of nodes; the measure of the recursions over expressions. */
  function Size(e: Expression): nat
    decreases e
  {
    match e
    case Alternation(options) => 1 + SizeAll(options)
    case Concatenation(elements) => 1 + SizeAll(elements)
    case Repetition(_, _, element) => 1 + Size(element)
    case Group(inner) => 1 + Size(inner)
    case Option(inner) => 1 + Size(inner)
    case _ => 1
  }

  function SizeAll(es: seq<Expression>): (n: nat)
    ensures forall i :: 0 <= i < |es| ==> Size(es[i]) <= n
    decreases es
  {
    if |es| == 0 then 0
    else
      var rest := SizeAll(es[1..]);
      assert forall i :: 1 <= i < |es| ==> es[i] == es[1..][i - 1];
      Size(es[0]) + rest
  }

  lemma SizePositive(e: Expression)
    ensures Size(e) >= 1
  {}
}
