/** The compiled, executable form of a grammar: a closed family of pattern
    combinators (RFC 5234 sections 2.3, 3.1, 3.2, 3.4 and 3.6) and the
    named rules that hold them. */
module Patterns {
  import opened Wrappers

  datatype Pattern =
    /** A literal string, compared case-insensitively unless marked. */
    | Terminal(value: string, isCaseSensitive: bool)
    /** One character whose code lies in `[minValue, maxValue]`. */
    | CharacterRange(minValue: int, maxValue: int)
    /** One character with exactly the code `code`. */
    | CharacterValue(code: int)
    /** A use of another rule, resolved by name when matching. */
    | RuleReference(ruleName: string)
    /** Concatenation: the elements one after another. */
    | Sequence(elements: seq<Pattern>)
    /** Ordered choice: the first alternative that matches. */
    | Alternation(alternatives: seq<Pattern>)
    /** `min*max element`; a missing bound means 0 and unbounded. */
    | Repetition(element: Pattern, min: Option<int>, max: Option<int>)

  datatype GrammarRule = GrammarRule(name: string, pattern: Pattern)

  /** The number of pattern nodes; the matcher's structural measure. */
  function Size(p: Pattern): nat
    decreases p
  {
    match p
    case Sequence(es) => 1 + SizeAll(es)
    case Alternation(alts) => 1 + SizeAll(alts)
    case Repetition(e, _, _) => 1 + Size(e)
    case _ => 1
  }

  function SizeAll(ps: seq<Pattern>): nat
    decreases ps
  {
    if |ps| == 0 then 0 else Size(ps[0]) + SizeAll(ps[1..])
  }
}
