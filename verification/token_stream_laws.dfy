/** What the cursor's lookahead questions mean, stated over the token list
    itself: a definition start, a rule boundary, and what the skips skip. */
module TokenStreamLaws {
  import opened Wrappers
  import opened Errors
  import opened Tokens
  import opened TokenStreams

  // ---------------------------------------------------------------------
  // Lookahead
  // ---------------------------------------------------------------------

  /** The stream after `k` calls of `MoveNext`. */
  function Forward(s: TokenStream, k: nat): TokenStream
    decreases k
  {
    if k == 0 then s else Forward(MoveNext(s), k - 1)
  }

  /** Looking `k` tokens ahead sees the token that will be current after
      `k` moves. */
  lemma {:induction false} PeekIsLookahead(s: TokenStream, k: nat)
    requires Valid(s)
    ensures Peek(s, k) == Ok(Current(Forward(s, k)))
    decreases k
  {
    if k > 0 {
      PeekIsLookahead(MoveNext(s), k - 1);
      if s.position < |s.tokens| {
        assert Peek(s, k) == Peek(MoveNext(s), k - 1);
      }
    }
  }

  /** Looking behind the first token is refused; looking behind the cursor
      but not before the list is not. */
  lemma PeekBehind(s: TokenStream, offset: int)
    requires Valid(s) && offset < 0
    ensures Peek(s, offset).Err? <==> s.position + offset < 0
    ensures s.position + offset >= 0 ==> Peek(s, offset) == Ok(s.tokens[s.position + offset])
  {}

  /** `Expect` consumes exactly the token it checks, except for an expected
      end of input at the end, which stays. */
  lemma ExpectConsumesOne(s: TokenStream, kind: TokenKind)
    requires Valid(s) && Expect(s, kind).Ok?
    ensures kind != EndOfInput ==> Expect(s, kind).value.rest.position == s.position + 1
    ensures kind == EndOfInput && IsAtEnd(s) ==> Expect(s, kind).value.rest == s
  {}

  // ---------------------------------------------------------------------
  // Skips
  // ---------------------------------------------------------------------

  const Trivia: set<TokenKind> := {Whitespace, Comment}

  /** The rule-start question looks past trivia itself, so skipping trivia
      first does not change its answer. */
  lemma {:induction false} SkipTriviaKeepsRuleStart(s: TokenStream)
    requires Valid(s)
    ensures IsAtRuleStart(SkipTrivia(s)) == IsAtRuleStart(s)
    decreases |s.tokens| - s.position
  {
    if Match(s, Whitespace) || Match(s, Comment) {
      SkipTriviaKeepsRuleStart(MoveNext(s));
    }
  }

  /** Skipping twice skips no more than skipping once. */
  lemma SkipsIdempotent(s: TokenStream)
    requires Valid(s)
    ensures SkipTrivia(SkipTrivia(s)) == SkipTrivia(s)
    ensures SkipContinuationLines(SkipContinuationLines(s)) == SkipContinuationLines(s)
  {}

  // ---------------------------------------------------------------------
  // Definition starts and rule boundaries
  // ---------------------------------------------------------------------

  /** A definition starts at `pos`: trivia, a rule name, whitespace, then `=`. */
  ghost predicate StartsDefinition(tokens: seq<Token>, pos: nat) {
    exists p: nat, q: nat :: pos <= p < q < |tokens| &&
      AllOf(tokens, pos, p, Trivia) && tokens[p].kind == RuleName &&
      AllOf(tokens, p + 1, q, {Whitespace}) && tokens[q].kind == Equal
  }

  /** After trivia from `pos`, the list ends or a line break follows. */
  ghost predicate EndsLine(tokens: seq<Token>, pos: nat) {
    exists p: nat :: pos <= p <= |tokens| && AllOf(tokens, pos, p, Trivia) &&
      (p == |tokens| || tokens[p].kind == CRLF)
  }

  /** After whitespace from `pos`, an `=`. */
  ghost predicate EqualFollows(tokens: seq<Token>, pos: nat) {
    exists q: nat :: pos <= q < |tokens| && AllOf(tokens, pos, q, {Whitespace}) && tokens[q].kind == Equal
  }

  lemma {:induction false} EqualAfterBlanksMeans(tokens: seq<Token>, pos: nat)
    ensures EqualAfterBlanks(tokens, pos) <==> EqualFollows(tokens, pos)
    decreases |tokens| - pos
  {
    if pos < |tokens| {
      EqualAfterBlanksMeans(tokens, pos + 1);
      if tokens[pos].kind == Equal {
        assert AllOf(tokens, pos, pos, {Whitespace});
      } else if EqualFollows(tokens, pos) {
        var q: nat :| pos <= q < |tokens| && AllOf(tokens, pos, q, {Whitespace}) && tokens[q].kind == Equal;
        assert AllOf(tokens, pos + 1, q, {Whitespace});
      }
    }
  }

  /** Trivia in front of a definition or a line end can be dropped. */
  lemma TriviaStep(tokens: seq<Token>, pos: nat)
    requires pos < |tokens| && IsTrivia(tokens[pos].kind)
    ensures StartsDefinition(tokens, pos) <==> StartsDefinition(tokens, pos + 1)
    ensures EndsLine(tokens, pos) <==> EndsLine(tokens, pos + 1)
  {
    TriviaBeforeDefinition(tokens, pos);
    TriviaBeforeLineEnd(tokens, pos);
  }

  lemma TriviaBeforeDefinition(tokens: seq<Token>, pos: nat)
    requires pos < |tokens| && IsTrivia(tokens[pos].kind)
    ensures StartsDefinition(tokens, pos) <==> StartsDefinition(tokens, pos + 1)
  {
    if StartsDefinition(tokens, pos) {
      DropTrivia(tokens, pos);
    }
    if StartsDefinition(tokens, pos + 1) {
      AddTrivia(tokens, pos);
    }
  }

  lemma DropTrivia(tokens: seq<Token>, pos: nat)
    requires pos < |tokens| && IsTrivia(tokens[pos].kind) && StartsDefinition(tokens, pos)
    ensures StartsDefinition(tokens, pos + 1)
  {
    var p: nat, q: nat :| pos <= p < q < |tokens| &&
      AllOf(tokens, pos, p, Trivia) && tokens[p].kind == RuleName &&
      AllOf(tokens, p + 1, q, {Whitespace}) && tokens[q].kind == Equal;
    assert AllOf(tokens, pos + 1, p, Trivia);
  }

  lemma AddTrivia(tokens: seq<Token>, pos: nat)
    requires pos < |tokens| && IsTrivia(tokens[pos].kind) && StartsDefinition(tokens, pos + 1)
    ensures StartsDefinition(tokens, pos)
  {
    var p: nat, q: nat :| pos + 1 <= p < q < |tokens| &&
      AllOf(tokens, pos + 1, p, Trivia) && tokens[p].kind == RuleName &&
      AllOf(tokens, p + 1, q, {Whitespace}) && tokens[q].kind == Equal;
    assert AllOf(tokens, pos, p, Trivia);
  }

  lemma TriviaBeforeLineEnd(tokens: seq<Token>, pos: nat)
    requires pos < |tokens| && IsTrivia(tokens[pos].kind)
    ensures EndsLine(tokens, pos) <==> EndsLine(tokens, pos + 1)
  {
    if EndsLine(tokens, pos) {
      var p: nat :| pos <= p <= |tokens| && AllOf(tokens, pos, p, Trivia) &&
        (p == |tokens| || tokens[p].kind == CRLF);
      assert AllOf(tokens, pos + 1, p, Trivia);
    }
    if EndsLine(tokens, pos + 1) {
      var p: nat :| pos + 1 <= p <= |tokens| && AllOf(tokens, pos + 1, p, Trivia) &&
        (p == |tokens| || tokens[p].kind == CRLF);
      assert AllOf(tokens, pos, p, Trivia);
    }
  }

  /** At a token that is not trivia, a definition starts exactly when it is
      a rule name followed by whitespace and `=`. */
  lemma DefinitionStep(tokens: seq<Token>, pos: nat)
    requires pos < |tokens| && !IsTrivia(tokens[pos].kind)
    ensures StartsDefinition(tokens, pos) <==> tokens[pos].kind == RuleName && EqualFollows(tokens, pos + 1)
  {
    if StartsDefinition(tokens, pos) {
      var p: nat, q: nat :| pos <= p < q < |tokens| &&
        AllOf(tokens, pos, p, Trivia) && tokens[p].kind == RuleName &&
        AllOf(tokens, p + 1, q, {Whitespace}) && tokens[q].kind == Equal;
      assert p == pos;
      assert EqualFollows(tokens, pos + 1);
    }
    if tokens[pos].kind == RuleName && EqualFollows(tokens, pos + 1) {
      var q: nat :| pos + 1 <= q < |tokens| && AllOf(tokens, pos + 1, q, {Whitespace}) && tokens[q].kind == Equal;
      assert AllOf(tokens, pos, pos, Trivia);
    }
  }

  /** At a token that is not trivia, a line ends exactly when it is a line break. */
  lemma LineEndStep(tokens: seq<Token>, pos: nat)
    requires pos <= |tokens|
    ensures pos == |tokens| ==> EndsLine(tokens, pos)
    ensures pos < |tokens| && !IsTrivia(tokens[pos].kind) ==> (EndsLine(tokens, pos) <==> tokens[pos].kind == CRLF)
  {
    assert AllOf(tokens, pos, pos, Trivia);
    if pos < |tokens| && !IsTrivia(tokens[pos].kind) && EndsLine(tokens, pos) {
      var p: nat :| pos <= p <= |tokens| && AllOf(tokens, pos, p, Trivia) &&
        (p == |tokens| || tokens[p].kind == CRLF);
      assert p == pos;
    }
  }

  lemma {:induction false} DefinitionAfterTriviaMeans(tokens: seq<Token>, pos: nat)
    ensures DefinitionAfterTrivia(tokens, pos) <==> StartsDefinition(tokens, pos)
    decreases |tokens| - pos
  {
    if pos < |tokens| {
      if IsTrivia(tokens[pos].kind) {
        DefinitionAfterTriviaMeans(tokens, pos + 1);
        TriviaStep(tokens, pos);
      } else {
        DefinitionStep(tokens, pos);
        EqualAfterBlanksMeans(tokens, pos + 1);
      }
    }
  }

  /** `IsAtRuleStart` holds exactly when a definition starts at the cursor. */
  lemma RuleStartMeans(s: TokenStream)
    ensures IsAtRuleStart(s) <==> StartsDefinition(s.tokens, s.position)
  {
    DefinitionAfterTriviaMeans(s.tokens, s.position);
  }

  lemma {:induction false} BoundaryAfterTriviaMeans(tokens: seq<Token>, pos: nat)
    requires pos <= |tokens|
    ensures BoundaryAfterTrivia(tokens, pos) <==> EndsLine(tokens, pos) || StartsDefinition(tokens, pos)
    decreases |tokens| - pos
  {
    LineEndStep(tokens, pos);
    if pos < |tokens| {
      if IsTrivia(tokens[pos].kind) {
        BoundaryAfterTriviaMeans(tokens, pos + 1);
        TriviaStep(tokens, pos);
      } else {
        DefinitionStep(tokens, pos);
        EqualAfterBlanksMeans(tokens, pos + 1);
      }
    }
  }

  /** `IsAtRuleBoundary` holds exactly when the cursor is on a line break
      after which, past trivia, the list ends, another line break follows,
      or a definition starts. */
  lemma RuleBoundaryMeans(s: TokenStream)
    requires Valid(s)
    ensures IsAtRuleBoundary(s) <==>
      Match(s, CRLF) && (EndsLine(s.tokens, s.position + 1) || StartsDefinition(s.tokens, s.position + 1))
  {
    if Match(s, CRLF) {
      BoundaryAfterTriviaMeans(s.tokens, s.position + 1);
    }
  }

  /** A line break as the very last token ends the rule. */
  lemma LastLineBreakIsBoundary(s: TokenStream)
    requires Match(s, CRLF) && s.position + 1 == |s.tokens|
    ensures IsAtRuleBoundary(s)
  {}

  /** An explicit end-of-input token after a line break does not make the
      line break a boundary: only the end of the list does. The scanner
      always emits that token, so the last line break of a text is skipped
      as a continuation line. */
  lemma ExplicitEndIsNoBoundary(s: TokenStream)
    requires Valid(s) && Match(s, CRLF)
    requires s.position + 1 < |s.tokens| && s.tokens[s.position + 1].kind == EndOfInput
    ensures !IsAtRuleBoundary(s)
    ensures SkipContinuationLines(s).position == s.position + 1
  {
    var t := MoveNext(s);
    assert Current(t).kind == EndOfInput;
    assert SkipTrivia(t) == t;
  }
}
