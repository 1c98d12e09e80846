/** The recursive-descent parser from tokens to the syntax tree: a list of
    rules, each `name = alternation`, where a rule may run over several
    lines and ends only where a new definition (or the end) begins
    (RFC 5234 section 4, as the code reads it). */
module Parsing {
  import opened Wrappers
  import opened Text
  import opened Errors
  import opened Tokens
  import opened TokenStreams
  import A = Ast

  /** The outcome of one parsing step. */
  type Step<T> = Result<Parsed<T>, Error>

  /** The tokens not yet read; the measure of the parse. */
  function Remaining(s: TokenStream): nat
    requires Valid(s)
  {
    |s.tokens| - s.position
  }

  /** A successful step read at least one token of the same list. */
  predicate Advances<T>(s: TokenStream, r: Step<T>) {
    r.Ok? ==> r.value.rest.tokens == s.tokens && Valid(r.value.rest) && s.position < r.value.rest.position
  }

  /** A successful step kept the list and did not move back. */
  predicate Keeps<T>(s: TokenStream, r: Step<T>) {
    r.Ok? ==> r.value.rest.tokens == s.tokens && Valid(r.value.rest) && s.position <= r.value.rest.position
  }

  /** The kinds that can start an element, a repeat prefix included. */
  predicate IsElementStart(s: TokenStream) {
    Current(s).kind in {RuleName, OpenParen, OpenBracket, CharVal, CaseSensitiveCharVal,
                        NumVal, ValueRange, ProseVal, Integer, Repeat}
  }

  /** A node the element level builds: neither a list nor a repetition. */
  predicate IsElementNode(e: A.Expression) {
    !(e.Alternation? || e.Concatenation? || e.Repetition?)
  }

  /** Where a list level stops: not on trivia, and on a line break only when
      it ends the rule. */
  predicate Settled(s: TokenStream) {
    !IsTrivia(Current(s).kind) && (!Match(s, CRLF) || IsAtRuleBoundary(s))
  }

  // ---------------------------------------------------------------------
  // Expressions
  // ---------------------------------------------------------------------

  /** `alternation = concatenation *("/" concatenation)`; a single option is
      returned as it is. The options may run over continuation lines. */
  function ParseAlternation(s: TokenStream): (r: Step<A.Expression>)
    requires Valid(s)
    ensures Advances(s, r)
    ensures r.Ok? ==> Settled(r.value.rest) && !Match(r.value.rest, Slash)
    ensures r.Ok? && r.value.value.Alternation? ==> |r.value.value.options| >= 2
    decreases Remaining(s), 6
  {
    var first :- ParseConcatenation(s);
    var all :- AlternationRest(first.rest, [first.value]);
    var options := all.value;
    Ok(Parsed(if |options| == 1 then options[0] else A.Alternation(options), all.rest))
  }

  /** The loop of `ParseAlternation`: further options, each after `/`. */
  function AlternationRest(s: TokenStream, options: seq<A.Expression>): (r: Step<seq<A.Expression>>)
    requires Valid(s)
    ensures Keeps(s, r)
    ensures r.Ok? ==> Settled(r.value.rest) && !Match(r.value.rest, Slash)
    ensures r.Ok? ==> |r.value.value| >= |options| && (|r.value.value| == |options| ==> r.value.value == options)
    decreases Remaining(s), 5
  {
    var t := SkipContinuationLines(SkipTrivia(s));
    if IsAtRuleBoundary(t) || Match(t, EndOfInput) then Ok(Parsed(options, t))
    else if Match(t, Slash) then
      var u := SkipContinuationLines(SkipTrivia(MoveNext(t)));
      var next :- ParseConcatenation(u);
      AlternationRest(next.rest, options + [next.value])
    else Ok(Parsed(options, t))
  }

  /** `concatenation = repetition *(repetition)`; a single element is
      returned as it is. */
  function ParseConcatenation(s: TokenStream): (r: Step<A.Expression>)
    requires Valid(s)
    ensures Advances(s, r)
    ensures r.Ok? ==> Settled(r.value.rest) && !IsElementStart(r.value.rest)
    ensures r.Ok? ==> !r.value.value.Alternation?
    ensures r.Ok? && r.value.value.Concatenation? ==> |r.value.value.elements| >= 2
    decreases Remaining(s), 4
  {
    var first :- ParseRepetition(s);
    var all :- ConcatenationRest(first.rest, [first.value]);
    var elements := all.value;
    Ok(Parsed(if |elements| == 1 then elements[0] else A.Concatenation(elements), all.rest))
  }

  /** The loop of `ParseConcatenation`: further elements, while one can start. */
  function ConcatenationRest(s: TokenStream, elements: seq<A.Expression>): (r: Step<seq<A.Expression>>)
    requires Valid(s)
    ensures Keeps(s, r)
    ensures r.Ok? ==> Settled(r.value.rest) && !IsElementStart(r.value.rest)
    ensures r.Ok? ==> |r.value.value| >= |elements| && (|r.value.value| == |elements| ==> r.value.value == elements)
    decreases Remaining(s), 3
  {
    var t := SkipContinuationLines(SkipTrivia(s));
    if IsAtRuleBoundary(t) || Match(t, EndOfInput) then Ok(Parsed(elements, t))
    else if IsElementStart(t) then
      var next :- ParseRepetition(t);
      ConcatenationRest(next.rest, elements + [next.value])
    else Ok(Parsed(elements, t))
  }

  /** `repetition = [repeat] element`: a repeat prefix wraps the element in
      its bounds; trivia may separate the two. */
  function ParseRepetition(s: TokenStream): (r: Step<A.Expression>)
    requires Valid(s)
    ensures Advances(s, r)
    ensures r.Ok? ==> IsElementStart(s)
    ensures r.Ok? ==> !r.value.value.Alternation? && !r.value.value.Concatenation?
    ensures r.Ok? && r.value.value.Repetition? ==> Match(s, Repeat) && IsElementNode(r.value.value.element)
    decreases Remaining(s), 2
  {
    if Match(s, Repeat) then
      var bounds :- GetRepetitionBounds(Current(s));
      var element :- ParseElement(SkipTrivia(MoveNext(s)));
      Ok(Parsed(A.Repetition(bounds.0, bounds.1, element.value), element.rest))
    else ParseElement(s)
  }

  /** One element, chosen by the kind of the current token: a parenthesis
      opens a group, a bracket an option, and every other kind is a
      single-token element or a syntax error. */
  function ParseElement(s: TokenStream): (r: Step<A.Expression>)
    requires Valid(s)
    ensures Advances(s, r)
    ensures r.Ok? ==> IsElementStart(s) && !Match(s, Repeat) && IsElementNode(r.value.value)
    ensures !IsElementStart(s) || Match(s, Repeat) ==>
      r == Err(SyntaxError("Expected element but found " + KindName(Current(s).kind),
        Current(s).line, Current(s).column))
    decreases Remaining(s), 1
  {
    if Match(s, OpenParen) then ParseGroup(s)
    else if Match(s, OpenBracket) then ParseOption(s)
    else ParseLeaf(s)
  }

  /** The single-token elements. Each kind is read with `Expect` right after
      a `Match` of the same kind, which cannot fail: the token is taken and
      the cursor moves on; a quoted literal's text is its decoded value,
      which for a quoted kind is always there. Any other kind is a syntax
      error at the token. */
  function ParseLeaf(s: TokenStream): (r: Step<A.Expression>)
    requires Valid(s)
    ensures r.Ok? ==> IsElementStart(s) && !Match(s, Repeat) && IsElementNode(r.value.value)
    ensures r.Ok? ==> r.value.rest == MoveNext(s)
    ensures !IsElementStart(s) || Match(s, Repeat) || Match(s, OpenParen) || Match(s, OpenBracket) ==>
      r == Err(SyntaxError("Expected element but found " + KindName(Current(s).kind),
        Current(s).line, Current(s).column))
  {
    var token := Current(s);
    match token.kind
    case RuleName => Ok(Parsed(A.RuleRef(token.value), MoveNext(s)))
    case CharVal => Ok(Parsed(A.Literal(GetStringValue(token).value, false), MoveNext(s)))
    case CaseSensitiveCharVal => Ok(Parsed(A.Literal(GetStringValue(token).value, true), MoveNext(s)))
    case NumVal => Ok(Parsed(A.NumberVal(token.value), MoveNext(s)))
    case ValueRange => Ok(Parsed(A.NumberVal(token.value), MoveNext(s)))
    case ProseVal => Ok(Parsed(A.ProseVal(token.value), MoveNext(s)))
    case Integer => Ok(Parsed(A.NumberVal(token.value), MoveNext(s)))
    case _ => Err(SyntaxError("Expected element but found " + KindName(token.kind), token.line, token.column))
  }

  /** `( alternation )`. */
  function ParseGroup(s: TokenStream): (r: Step<A.Expression>)
    requires Valid(s)
    ensures Advances(s, r)
    ensures r.Ok? ==> Match(s, OpenParen) && r.value.value.Group?
    decreases Remaining(s), 0
  {
    var open :- Expect(s, OpenParen);
    var inner :- ParseAlternation(SkipTrivia(open.rest));
    var close :- Expect(SkipTrivia(inner.rest), CloseParen);
    Ok(Parsed(A.Group(inner.value), close.rest))
  }

  /** `[ alternation ]`. */
  function ParseOption(s: TokenStream): (r: Step<A.Expression>)
    requires Valid(s)
    ensures Advances(s, r)
    ensures r.Ok? ==> Match(s, OpenBracket) && r.value.value.Option?
    decreases Remaining(s), 0
  {
    var open :- Expect(s, OpenBracket);
    var inner :- ParseAlternation(SkipTrivia(open.rest));
    var close :- Expect(SkipTrivia(inner.rest), CloseBracket);
    Ok(Parsed(A.Option(inner.value), close.rest))
  }

  // ---------------------------------------------------------------------
  // Rules
  // ---------------------------------------------------------------------

  /** `name = alternation`, then the end of the rule. */
  function ParseRule(s: TokenStream): (r: Step<A.Rule>)
    requires Valid(s)
    ensures Advances(s, r)
    ensures r.Ok? ==> Match(s, RuleName) && r.value.value.name == Current(s).value
  {
    var name :- Expect(s, RuleName);
    RuleDefinition(name.value.value, SkipTrivia(name.rest))
  }

  /** The rest of a rule after its name: `=`, the alternation, and the
      rule's end. */
  function RuleDefinition(name: string, s: TokenStream): (r: Step<A.Rule>)
    requires Valid(s)
    ensures Advances(s, r)
    ensures r.Ok? ==> r.value.value.name == name
  {
    var equal :- Expect(s, Equal);
    var expr :- ParseAlternation(SkipTrivia(equal.rest));
    EndRule(SkipContinuationLines(SkipTrivia(expr.rest)), A.Rule(name, expr.value))
  }

  /** The end of a rule, past trailing trivia and continuation lines: a line
      break that is a rule boundary, consumed, or the end of input, left in
      place; anything else is a syntax error. */
  function EndRule(t: TokenStream, rule: A.Rule): (r: Step<A.Rule>)
    requires Valid(t)
    ensures Keeps(t, r)
    ensures r.Ok? <==> IsAtRuleBoundary(t) || Match(t, EndOfInput)
    ensures r.Ok? ==> r.value.value == rule
    ensures r.Ok? ==> if IsAtRuleBoundary(t) then r.value.rest == MoveNext(t) else r.value.rest == t
  {
    if Match(t, CRLF) && IsAtRuleBoundary(t) then Ok(Parsed(rule, MoveNext(t)))
    else if !Match(t, EndOfInput) then
      Err(SyntaxError("Expected end of rule (CRLF)", Current(t).line, Current(t).column))
    else Ok(Parsed(rule, t))
  }

  predicate IsSeparator(s: TokenStream) {
    Match(s, Whitespace) || Match(s, Comment) || Match(s, CRLF)
  }

  /** The blank lines, whitespace and comments before the first rule. */
  function SkipLeading(s: TokenStream): (r: TokenStream)
    requires Valid(s)
    ensures Valid(r) && r.tokens == s.tokens && s.position <= r.position
    ensures AllOf(s.tokens, s.position, r.position, {Whitespace, Comment, CRLF})
    ensures !IsSeparator(r)
    decreases Remaining(s)
  {
    if IsSeparator(s) then SkipLeading(MoveNext(s)) else s
  }

  /** The loop of `ParseRuleList`: a rule wherever a definition starts,
      separators skipped, anything else an error. */
  function RuleLoop(s: TokenStream, rules: seq<A.Rule>): (r: Result<A.RuleList, Error>)
    requires Valid(s)
    ensures r.Ok? ==> |r.value.rules| >= |rules|
    decreases Remaining(s)
  {
    if Match(s, EndOfInput) then Ok(A.RuleList(rules))
    else if IsAtRuleStart(s) then
      var rule :- ParseRule(s);
      RuleLoop(rule.rest, rules + [rule.value])
    else if IsSeparator(s) then RuleLoop(MoveNext(s), rules)
    else Err(SyntaxError("Expected rule name but found " + KindName(Current(s).kind), Current(s).line, Current(s).column))
  }

  /** `rulelist`: every rule of the token list, in order. */
  function ParseRuleList(tokens: seq<Token>): Result<A.RuleList, Error> {
    RuleLoop(SkipLeading(Open(tokens)), [])
  }

  /** The tail of a concatenation is its second part. */
  lemma SuffixOfAppend(a: string, b: string)
    ensures |b| <= |a + b| && (a + b)[|a + b| - |b|..] == b
  {
  }

  /** The text of a syntax error: the file (or `<input>`), the line and
      column in parentheses, then the message. */
  function SyntaxMessage(file: Option<string>, e: Error): (m: string)
    requires e.SyntaxError?
    ensures |m| >= |e.message| && m[|m| - |e.message|..] == e.message
    ensures (file.None? || file.value == "") ==> "<input>(" <= m
    ensures file.Some? && file.value != "" ==> file.value + "(" <= m
    ensures var at := "(" + IntToString(e.line) + "," + IntToString(e.column) + "): " + e.message;
      |at| <= |m| && m[|m| - |at|..] == at
  {
    var filePart := if file.None? || file.value == "" then "<input>" else file.value;
    var at := "(" + IntToString(e.line) + "," + IntToString(e.column) + "): " + e.message;
    SuffixOfAppend(filePart, at);
    filePart + at
  }
}
