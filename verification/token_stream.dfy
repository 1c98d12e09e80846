/** The parser's cursor over a token list: the current token and lookahead,
    the trivia it skips, and the two questions that decide where a rule of
    the grammar text ends. */
module TokenStreams {
  import opened Wrappers
  import opened Errors
  import opened Tokens

  /** A token list and the index of the current token. */
  datatype TokenStream = TokenStream(tokens: seq<Token>, position: nat)

  /** What a parsing step gives back: the value it read and the cursor after it. */
  datatype Parsed<+T> = Parsed(value: T, rest: TokenStream)

  /** The stream's own invariant: the index starts at zero and only moves by
      `MoveNext`, which stops at the length. */
  predicate Valid(s: TokenStream) {
    s.position <= |s.tokens|
  }

  function Open(tokens: seq<Token>): (s: TokenStream)
    ensures Valid(s) && s.tokens == tokens && s.position == 0
  {
    TokenStream(tokens, 0)
  }

  /** The token read past the end: an empty end-of-input token placed at the
      last token, or at line 0, column 0 when the list is empty. */
  function EndToken(tokens: seq<Token>): Token {
    if |tokens| > 0 then Token(EndOfInput, "", tokens[|tokens| - 1].line, tokens[|tokens| - 1].column)
    else Token(EndOfInput, "", 0, 0)
  }

  function Current(s: TokenStream): Token {
    if s.position < |s.tokens| then s.tokens[s.position] else EndToken(s.tokens)
  }

  predicate IsAtEnd(s: TokenStream) {
    s.position >= |s.tokens|
  }

  /** One token forward; nothing happens at the end. */
  function MoveNext(s: TokenStream): (r: TokenStream)
    ensures r.tokens == s.tokens
    ensures Valid(s) ==> Valid(r)
    ensures IsAtEnd(s) <==> r == s
    ensures !IsAtEnd(s) ==> r.position == s.position + 1
  {
    if s.position < |s.tokens| then s.(position := s.position + 1) else s
  }

  /** The token `offset` places from the cursor, the end token past the
      list; an index before the first token is refused as the array read
      refuses it. */
  function Peek(s: TokenStream, offset: int): Result<Token, Error> {
    var target := s.position + offset;
    if target < |s.tokens| then
      if target < 0 then Err(IndexOutOfRange("Index was outside the bounds of the array."))
      else Ok(s.tokens[target])
    else Ok(EndToken(s.tokens))
  }

  predicate Match(s: TokenStream, kind: TokenKind) {
    Current(s).kind == kind
  }

  /** The current token, consumed, when it has the expected kind; otherwise a
      syntax error at the current token naming both kinds. */
  function Expect(s: TokenStream, kind: TokenKind): (r: Result<Parsed<Token>, Error>)
    ensures r.Ok? <==> Current(s).kind == kind
    ensures r.Ok? ==> r.value.value == Current(s) && r.value.rest == MoveNext(s)
    ensures r.Err? ==>
      (r.error.SyntaxError? && r.error.line == Current(s).line && r.error.column == Current(s).column)
  {
    if Current(s).kind != kind then
      Err(SyntaxError("Expected " + KindName(kind) + " but found " + KindName(Current(s).kind),
        Current(s).line, Current(s).column))
    else Ok(Parsed(Current(s), MoveNext(s)))
  }

  // ---------------------------------------------------------------------
  // Skipping
  // ---------------------------------------------------------------------

  /** Whitespace and comments; line breaks are not trivia, they end rules. */
  predicate IsTrivia(k: TokenKind) {
    k == Whitespace || k == Comment
  }

  /** Every token in `[from, to)` has one of the kinds. */
  ghost predicate AllOf(tokens: seq<Token>, from: nat, to: nat, kinds: set<TokenKind>)
    requires from <= to <= |tokens|
  {
    forall i :: from <= i < to ==> tokens[i].kind in kinds
  }

  /** Moves past whitespace and comments, stopping on anything else. */
  function SkipTrivia(s: TokenStream): (r: TokenStream)
    requires Valid(s)
    ensures Valid(r) && r.tokens == s.tokens && s.position <= r.position
    ensures AllOf(s.tokens, s.position, r.position, {Whitespace, Comment})
    ensures !IsTrivia(Current(r).kind)
    decreases |s.tokens| - s.position
  {
    if Match(s, Whitespace) || Match(s, Comment) then SkipTrivia(MoveNext(s)) else s
  }

  // ---------------------------------------------------------------------
  // Where rules start and end
  // ---------------------------------------------------------------------

  /** From `pos`, whitespace and then `=`: the second loop of both questions. */
  function EqualAfterBlanks(tokens: seq<Token>, pos: nat): bool
    decreases |tokens| - pos
  {
    pos < |tokens| &&
    (tokens[pos].kind == Equal || (tokens[pos].kind == Whitespace && EqualAfterBlanks(tokens, pos + 1)))
  }

  /** From `pos`, trivia, then a rule name followed by whitespace and `=`. */
  function DefinitionAfterTrivia(tokens: seq<Token>, pos: nat): bool
    decreases |tokens| - pos
  {
    pos < |tokens| &&
    if IsTrivia(tokens[pos].kind) then DefinitionAfterTrivia(tokens, pos + 1)
    else tokens[pos].kind == RuleName && EqualAfterBlanks(tokens, pos + 1)
  }

  /** From `pos`, trivia, then the end of the list, a line break, or a rule
      name followed by whitespace and `=`. */
  function BoundaryAfterTrivia(tokens: seq<Token>, pos: nat): bool
    decreases |tokens| - pos
  {
    pos >= |tokens| ||
    if IsTrivia(tokens[pos].kind) then BoundaryAfterTrivia(tokens, pos + 1)
    else tokens[pos].kind == CRLF || (tokens[pos].kind == RuleName && EqualAfterBlanks(tokens, pos + 1))
  }

  /** Whether a definition starts at the cursor: trivia, a rule name,
      whitespace, `=`. */
  predicate IsAtRuleStart(s: TokenStream) {
    DefinitionAfterTrivia(s.tokens, s.position)
  }

  /** Whether the line break under the cursor ends the rule: it is the last
      token, or after trivia the list ends, another line break follows, or
      a new definition starts. */
  predicate IsAtRuleBoundary(s: TokenStream) {
    Match(s, CRLF) && BoundaryAfterTrivia(s.tokens, s.position + 1)
  }

  /** Moves past line breaks that continue the current rule, and the trivia
      after each; stops on a line break that ends the rule or on anything
      else. */
  function SkipContinuationLines(s: TokenStream): (r: TokenStream)
    requires Valid(s)
    ensures Valid(r) && r.tokens == s.tokens && s.position <= r.position
    ensures AllOf(s.tokens, s.position, r.position, {CRLF, Whitespace, Comment})
    ensures !Match(r, CRLF) || IsAtRuleBoundary(r)
    ensures !IsTrivia(Current(s).kind) ==> !IsTrivia(Current(r).kind)
    decreases |s.tokens| - s.position
  {
    if Match(s, CRLF) && !IsAtRuleBoundary(s) then
      var t := SkipTrivia(MoveNext(s));
      var r := SkipContinuationLines(t);
      ContinuedOver(s.tokens, s.position, t.position, r.position);
      r
    else s
  }

  /** A line break, trivia, then line breaks and trivia: all skippable. */
  lemma ContinuedOver(tokens: seq<Token>, a: nat, b: nat, c: nat)
    requires a < b <= c <= |tokens| && tokens[a].kind == CRLF
    requires AllOf(tokens, a + 1, b, {Whitespace, Comment})
    requires AllOf(tokens, b, c, {CRLF, Whitespace, Comment})
    ensures AllOf(tokens, a, c, {CRLF, Whitespace, Comment})
  {
  }
}
