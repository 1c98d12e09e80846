/** The scanner as the source writes it: a loop over the input that keeps
    the line and column as it goes, shown to produce `Scan`. */
module ScannerLaws {
  import opened Wrappers
  import opened Text
  import opened Tokens
  import opened Scanning

  /** One turn of the scanner's loop at `pos`: the tokens it emits (none
      or one) and where the scan goes on. */
  method ScanStep(input: string, m: Matcher, pos: nat, line: int, column: int)
    returns (emitted: seq<Token>, next: nat, nextLine: int, nextColumn: int)
    requires pos < |input| && Fits(input, m)
    ensures pos < next <= |input| && |emitted| <= 1
    ensures ScanFrom(input, m, pos, line, column) == emitted + ScanFrom(input, m, next, nextLine, nextColumn)
  {
    var found := m(pos);
    if found.None? {
      ScanSkips(input, m, pos, line, column);
      emitted, next, nextLine, nextColumn := [], pos + 1, line, column;
      assert emitted + ScanFrom(input, m, next, nextLine, nextColumn) == ScanFrom(input, m, next, nextLine, nextColumn);
    } else {
      var kind := found.value.0;
      var n := found.value.1;
      ScanEmits(input, m, pos, line, column, kind, n);
      var value := input[pos..pos + n];
      emitted := [Token(kind, value, line, column)];
      nextLine, nextColumn := AdvanceOver(line, column, value);
      next := pos + n;
    }
  }

  /** `Scanner.Scan` as a loop: every token the pattern matches is emitted
      at the current line and column, which then move over its text; the
      `EndOfInput` token closes the list. */
  method ScanTokens(input: string) returns (tokens: seq<Token>)
    ensures tokens == Scan(input)
  {
    var m := Matches(input);
    var line, column := 1, 1;
    var pos: nat := 0;
    tokens := [];
    while pos < |input|
      invariant pos <= |input|
      invariant tokens + ScanFrom(input, m, pos, line, column) == Scan(input)
      decreases |input| - pos
    {
      var emitted, next, nextLine, nextColumn := ScanStep(input, m, pos, line, column);
      assert tokens + (emitted + ScanFrom(input, m, next, nextLine, nextColumn)) ==
        (tokens + emitted) + ScanFrom(input, m, next, nextLine, nextColumn);
      tokens, pos, line, column := tokens + emitted, next, nextLine, nextColumn;
    }
    ScanAtEnd(input, m, line, column);
    tokens := tokens + [Token(EndOfInput, "", line, column)];
  }

  // ---------------------------------------------------------------------
  // The lexical form of each kind
  // ---------------------------------------------------------------------

  /** Every character of `t` from index `from` on satisfies `p`. */
  ghost predicate AllFrom(t: string, from: nat, p: char -> bool) {
    forall i :: from <= i < |t| ==> p(t[i])
  }

  /** An opening character, characters other than the closing one, and the
      closing one. */
  ghost predicate Enclosed(t: string, open: char, close: char) {
    && |t| >= 2 && t[0] == open && t[|t| - 1] == close
    && forall i :: 1 <= i < |t| - 1 ==> t[i] != close
  }

  /** `%`, a base letter and one or more hex digits, then `-` and one or
      more hex digits. */
  ghost predicate RangeForm(t: string) {
    && |t| >= 5 && t[0] == '%' && IsBaseLetter(t[1])
    && exists s :: (3 <= s < |t| - 1 && t[s] == '-' && AllFrom(t[..s], 2, IsHexDigit) && AllFrom(t, s + 1, IsHexDigit))
  }

  /** `%`, a base letter, then hex digits in groups joined by single dots:
      hex digits and dots only, a hex digit first and last, no two dots
      side by side. */
  ghost predicate NumForm(t: string) {
    && |t| >= 3 && t[0] == '%' && IsBaseLetter(t[1]) && IsHexDigit(t[2]) && IsHexDigit(t[|t| - 1])
    && (forall i :: 2 <= i < |t| ==> (IsHexDigit(t[i]) || t[i] == '.'))
    && (forall i, j :: 2 <= i < j < |t| && j == i + 1 ==> (t[i] != '.' || t[j] != '.'))
  }

  /** Digits, one `*`, digits. */
  ghost predicate RepeatForm(t: string) {
    exists s :: (0 <= s < |t| && t[s] == '*' && AllFrom(t[..s], 0, IsDigit) && AllFrom(t, s + 1, IsDigit))
  }

  /** The text a token of kind `k` can have: the lexical form the scanner's
      pattern gives that kind. No text is a `Star` or an `EndOfInput`
      token: a lone `*` is a repeat, and the end token has no text. */
  ghost predicate Shaped(k: TokenKind, t: string) {
    match k
    case Whitespace => |t| >= 1 && AllFrom(t, 0, IsBlank)
    case Comment => |t| >= 1 && t[0] == ';' && AllFrom(t, 1, InLine)
    case CRLF => t == "\r\n" || t == "\n" || t == "\r"
    case RuleName => |t| >= 1 && IsLetter(t[0]) && AllFrom(t, 1, IsNameChar)
    case Repeat => RepeatForm(t)
    case Integer => |t| >= 1 && AllFrom(t, 0, IsDigit)
    case CharVal => Enclosed(t, '"', '"')
    case CaseSensitiveCharVal => Enclosed(t, '\'', '\'')
    case ProseVal => Enclosed(t, '<', '>')
    case ValueRange => RangeForm(t)
    case NumVal => NumForm(t)
    case Equal => t == "="
    case Slash => t == "/"
    case Star => false
    case OpenParen => t == "("
    case CloseParen => t == ")"
    case OpenBracket => t == "["
    case CloseBracket => t == "]"
    case OpenAngle => t == "<"
    case CloseAngle => t == ">"
    case Percent => t == "%"
    case OtherSymbol => t == "-"
    case EndOfInput => false
  }

  /** The characters a run covers, read from the token text. */
  lemma RunCovers(input: string, pos: nat, n: nat, from: nat, p: char -> bool)
    requires from <= n && pos + n <= |input|
    requires forall i :: pos + from <= i < pos + n ==> p(input[i])
    ensures AllFrom(input[pos..pos + n], from, p)
  {
    var t := input[pos..pos + n];
    forall i | from <= i < |t| ensures p(t[i]) {
      assert t[i] == input[pos + i];
    }
  }

  lemma BlankShaped(input: string, pos: nat, n: nat)
    requires pos < |input| && Blank(input, pos) == Some(n)
    ensures pos + n <= |input| && Shaped(Whitespace, input[pos..pos + n])
  {
    RunCovers(input, pos, n, 0, IsBlank);
  }

  lemma CommentShaped(input: string, pos: nat, n: nat)
    requires pos < |input| && CommentText(input, pos) == Some(n)
    ensures pos + n <= |input| && Shaped(Comment, input[pos..pos + n])
  {
    RunCovers(input, pos, n, 1, InLine);
  }

  lemma NameShaped(input: string, pos: nat, n: nat)
    requires pos < |input| && Name(input, pos) == Some(n)
    ensures pos + n <= |input| && Shaped(RuleName, input[pos..pos + n])
  {
    RunCovers(input, pos, n, 1, IsNameChar);
  }

  lemma IntegerShaped(input: string, pos: nat, n: nat)
    requires pos < |input| && IntegerText(input, pos) == Some(n)
    ensures pos + n <= |input| && Shaped(Integer, input[pos..pos + n])
  {
    RunCovers(input, pos, n, 0, IsDigit);
  }

  lemma QuotedShaped(input: string, pos: nat, open: char, close: char, n: nat)
    requires pos < |input| && Quoted(input, pos, open, close) == Some(n)
    ensures pos + n <= |input| && Enclosed(input[pos..pos + n], open, close)
  {
    var t := input[pos..pos + n];
    forall i | 1 <= i < |t| - 1 ensures t[i] != close {
      assert t[i] == input[pos + i];
    }
  }

  lemma RepeatShaped(input: string, pos: nat)
    requires pos < |input| && RepeatText(input, pos).Some?
    ensures RepeatForm(input[pos..pos + RepeatText(input, pos).value])
  {
    var d := Run(input, pos, IsDigit);
    var n := RepeatText(input, pos).value;
    var t := input[pos..pos + n];
    RunCovers(input, pos, d, 0, IsDigit);
    assert t[..d] == input[pos..pos + d];
    RunCovers(input, pos, n, d + 1, IsDigit);
    assert t[d] == '*';
  }

  lemma RangeShaped(input: string, pos: nat)
    requires pos < |input| && RangeText(input, pos).Some?
    ensures RangeForm(input[pos..pos + RangeText(input, pos).value])
  {
    var h1 := Run(input, pos + 2, IsHexDigit);
    var q := pos + 2 + h1;
    var n := RangeText(input, pos).value;
    var t := input[pos..pos + n];
    RunCovers(input, pos, 2 + h1, 2, IsHexDigit);
    assert t[..2 + h1] == input[pos..pos + 2 + h1];
    RunCovers(input, pos, n, 3 + h1, IsHexDigit);
    assert t[2 + h1] == '-';
  }

  /** The dot groups after a run of hex digits: hex digits and dots only,
      a dot first, a hex digit last, and no two dots side by side. */
  lemma {:induction false} DotGroupsShaped(input: string, pos: nat)
    requires pos <= |input|
    ensures var n := DotGroups(input, pos);
      && (forall i :: pos <= i < pos + n ==> (IsHexDigit(input[i]) || input[i] == '.'))
      && (n > 0 ==> input[pos] == '.' && IsHexDigit(input[pos + n - 1]))
      && (forall i, j :: pos <= i < j < pos + n && j == i + 1 ==> (input[i] != '.' || input[j] != '.'))
    decreases |input| - pos
  {
    if pos + 1 < |input| && input[pos] == '.' && IsHexDigit(input[pos + 1]) {
      var h := Run(input, pos + 1, IsHexDigit);
      DotGroupsShaped(input, pos + 1 + h);
    }
  }

  /** The form of a `%x` value, read from the input into the token text. */
  lemma NumFormOfSlice(input: string, pos: nat, n: nat)
    requires 3 <= n && pos + n <= |input|
    requires input[pos] == '%' && IsBaseLetter(input[pos + 1])
    requires IsHexDigit(input[pos + 2]) && IsHexDigit(input[pos + n - 1])
    requires forall i :: pos + 2 <= i < pos + n ==> (IsHexDigit(input[i]) || input[i] == '.')
    requires forall i, j :: pos + 2 <= i < j < pos + n && j == i + 1 ==> (input[i] != '.' || input[j] != '.')
    ensures NumForm(input[pos..pos + n])
  {
    var t := input[pos..pos + n];
    forall i | 2 <= i < |t| ensures IsHexDigit(t[i]) || t[i] == '.' {
      assert t[i] == input[pos + i];
    }
    forall i, j | 2 <= i < j < |t| && j == i + 1 ensures t[i] != '.' || t[j] != '.' {
      assert t[i] == input[pos + i] && t[j] == input[pos + j];
    }
  }

  lemma NumShaped(input: string, pos: nat)
    requires pos < |input| && NumText(input, pos).Some?
    ensures NumForm(input[pos..pos + NumText(input, pos).value])
  {
    var h1 := Run(input, pos + 2, IsHexDigit);
    var q := pos + 2 + h1;
    var g := DotGroups(input, q);
    var n := NumText(input, pos).value;
    DotGroupsShaped(input, q);
    assert IsHexDigit(input[pos + n - 1]) by {
      if g == 0 {
        assert pos + 2 <= pos + n - 1 < q;
      }
    }
    forall i, j | pos + 2 <= i < j < pos + n && j == i + 1 ensures input[i] != '.' || input[j] != '.' {
      if i < q {
        assert IsHexDigit(input[i]);
      }
    }
    NumFormOfSlice(input, pos, n);
  }

  /** The one- and two-character tokens. */
  lemma SymbolShaped(k: TokenKind, input: string, pos: nat, n: nat)
    requires pos < |input| && Recogniser(k, input, pos) == Some(n)
    requires k in {CRLF, Equal, Slash, OpenParen, CloseParen, OpenBracket, CloseBracket,
                   OpenAngle, CloseAngle, Percent, OtherSymbol}
    ensures pos + n <= |input| && Shaped(k, input[pos..pos + n])
  {}

  /** Whatever a recogniser other than the unreachable `Star` one matches
      has the lexical form of its kind. */
  lemma RecogniserShaped(k: TokenKind, input: string, pos: nat, n: nat)
    requires pos < |input| && Recogniser(k, input, pos) == Some(n) && k != Star
    ensures pos + n <= |input| && Shaped(k, input[pos..pos + n])
  {
    match k {
      case Whitespace => BlankShaped(input, pos, n);
      case Comment => CommentShaped(input, pos, n);
      case RuleName => NameShaped(input, pos, n);
      case Repeat => RepeatShaped(input, pos);
      case Integer => IntegerShaped(input, pos, n);
      case CharVal => QuotedShaped(input, pos, '"', '"', n);
      case CaseSensitiveCharVal => QuotedShaped(input, pos, '\'', '\'', n);
      case ProseVal => QuotedShaped(input, pos, '<', '>', n);
      case ValueRange => RangeShaped(input, pos);
      case NumVal => NumShaped(input, pos);
      case EndOfInput =>
      case _ => SymbolShaped(k, input, pos, n);
    }
  }

  /** The kind the scanner gives at `pos` is one whose recogniser matches
      there, with the length it matches; it is never `Star`: at a `*` the
      repeat alternative, tried earlier, already matches. */
  lemma RecognisedByItsKind(input: string, pos: nat, k: TokenKind, n: nat)
    requires pos < |input| && Recognise(input, pos) == Some((k, n))
    ensures Recogniser(k, input, pos) == Some(n)
    ensures k != Star
  {
    RecogniseIsFirstMatch(input, pos);
    var j :| 0 <= j < |Order| && Order[j] == k && FirstMatchAt(input, pos, j, n);
    if k == Star {
      StarIsRepeat(input, pos);
      StarComesLate(j);
      assert false;
    }
  }

  /** `Star` is tried after `Repeat`. */
  lemma StarComesLate(j: int)
    requires 0 <= j < |Order| && Order[j] == Star
    ensures j > 4 && Order[4] == Repeat
  {}

  /** Wherever a `*` token could start, a repeat prefix starts too. */
  lemma StarIsRepeat(input: string, pos: nat)
    requires pos < |input| && Recogniser(Star, input, pos).Some?
    ensures Recogniser(Repeat, input, pos).Some?
  {
    assert input[pos] == '*';
    assert Run(input, pos, IsDigit) == 0;
  }

  /** Every token the scanner recognises has the lexical form of its kind. */
  lemma RecognisedShaped(input: string, pos: nat, k: TokenKind, n: nat)
    requires pos < |input| && Recognise(input, pos) == Some((k, n))
    ensures pos + n <= |input| && Shaped(k, input[pos..pos + n])
  {
    RecognisedByItsKind(input, pos, k, n);
    RecogniserShaped(k, input, pos, n);
  }

  // ---------------------------------------------------------------------
  // The token list
  // ---------------------------------------------------------------------

  /** A token list that ends with one `EndOfInput` token with empty text,
      every token before it having the lexical form of its kind (so none
      of them is `Star` or `EndOfInput`). */
  ghost predicate WellEnded(r: seq<Token>) {
    && |r| >= 1 && r[|r| - 1].kind == EndOfInput && r[|r| - 1].value == ""
    && forall i :: 0 <= i < |r| - 1 ==> Shaped(r[i].kind, r[i].value)
  }

  /** A token list each of whose tokens sits at the line and column that
      the text of the tokens before it reaches from `(line, column)`. */
  ghost predicate PositionedFrom(r: seq<Token>, line: int, column: int) {
    forall i :: 0 <= i < |r| ==> (r[i].line, r[i].column) == Advance(line, column, TextOf(r[..i]))
  }

  lemma ConsWellEnded(t: Token, rest: seq<Token>)
    requires Shaped(t.kind, t.value) && WellEnded(rest)
    ensures WellEnded([t] + rest)
  {
    var r := [t] + rest;
    forall i | 0 <= i < |r| - 1 ensures Shaped(r[i].kind, r[i].value) {
      if i > 0 {
        assert r[i] == rest[i - 1];
      }
    }
  }

  lemma ConsPositioned(t: Token, rest: seq<Token>, line: int, column: int)
    requires t.line == line && t.column == column
    requires PositionedFrom(rest, Advance(line, column, t.value).0, Advance(line, column, t.value).1)
    ensures PositionedFrom([t] + rest, line, column)
  {
    var r := [t] + rest;
    forall i | 0 <= i < |r|
      ensures (r[i].line, r[i].column) == Advance(line, column, TextOf(r[..i]))
    {
      if i == 0 {
        assert r[..0] == [];
      } else {
        assert r[i] == rest[i - 1];
        assert r[..i][1..] == rest[..i - 1];
        AdvanceConcat(line, column, t.value, TextOf(rest[..i - 1]));
      }
    }
  }

  /** Every match of `m` has the lexical form of its kind. */
  ghost predicate MatchesShaped(input: string, m: Matcher)
    requires Fits(input, m)
  {
    forall p: nat :: p < |input| && m(p).Some? ==> Shaped(m(p).value.0, input[p..p + m(p).value.1])
  }

  /** The lexer's pattern gives only tokens of the right form. */
  lemma PatternShaped(input: string)
    ensures MatchesShaped(input, Matches(input))
  {
    var m := Matches(input);
    forall p: nat | p < |input| && m(p).Some?
      ensures Shaped(m(p).value.0, input[p..p + m(p).value.1])
    {
      PointShaped(input, m, p);
    }
  }

  /** The lexer's match at one position has its kind's form. */
  lemma PointShaped(input: string, m: Matcher, p: nat)
    requires m == Matches(input) && p < |input| && m(p).Some?
    ensures Shaped(m(p).value.0, input[p..p + m(p).value.1])
  {
    var r := Recognise(input, p);
    assert m(p) == r;
    RecognisedShaped(input, p, r.value.0, r.value.1);
  }

  /** A scan whose matches all have their kind's form is well ended. */
  lemma {:induction false} ScanShaped(input: string, m: Matcher, pos: nat, line: int, column: int)
    requires pos <= |input| && Fits(input, m) && MatchesShaped(input, m)
    ensures WellEnded(ScanFrom(input, m, pos, line, column))
    decreases |input| - pos
  {
    if pos == |input| {
      ScanAtEnd(input, m, line, column);
    } else {
      var found := m(pos);
      if found.None? {
        ScanSkips(input, m, pos, line, column);
        ScanShaped(input, m, pos + 1, line, column);
      } else {
        var kind, n := found.value.0, found.value.1;
        ScanEmits(input, m, pos, line, column, kind, n);
        var value := input[pos..pos + n];
        var next := Advance(line, column, value);
        ScanShaped(input, m, pos + n, next.0, next.1);
        ConsWellEnded(Token(kind, value, line, column), ScanFrom(input, m, pos + n, next.0, next.1));
      }
    }
  }

  /** Each token of the scan from `(line, column)` sits where the text of
      the tokens before it leads. */
  lemma {:induction false} ScanPositions(input: string, m: Matcher, pos: nat, line: int, column: int)
    requires pos <= |input| && Fits(input, m)
    ensures PositionedFrom(ScanFrom(input, m, pos, line, column), line, column)
    decreases |input| - pos
  {
    if pos == |input| {
      ScanAtEnd(input, m, line, column);
      assert [Token(EndOfInput, "", line, column)][..0] == [];
    } else {
      var found := m(pos);
      if found.None? {
        ScanSkips(input, m, pos, line, column);
        ScanPositions(input, m, pos + 1, line, column);
      } else {
        var kind, n := found.value.0, found.value.1;
        ScanEmits(input, m, pos, line, column, kind, n);
        var value := input[pos..pos + n];
        var next := Advance(line, column, value);
        ScanPositions(input, m, pos + n, next.0, next.1);
        ConsPositioned(Token(kind, value, line, column), ScanFrom(input, m, pos + n, next.0, next.1), line, column);
      }
    }
  }

  /** `Scanner.Scan`: the first token is at line 1, column 1; the last is
      the `EndOfInput` token at the line and column the whole scanned text
      reaches; no other token is `EndOfInput` or `Star`. */
  lemma ScanEnds(input: string)
    ensures var r := Scan(input);
      && (r[0].line, r[0].column) == (1, 1)
      && r[|r| - 1] == Token(EndOfInput, "", Advance(1, 1, TextOf(r[..|r| - 1])).0, Advance(1, 1, TextOf(r[..|r| - 1])).1)
      && forall i :: 0 <= i < |r| - 1 ==> r[i].kind != EndOfInput && r[i].kind != Star
  {
    var r := Scan(input);
    PatternShaped(input);
    ScanShaped(input, Matches(input), 0, 1, 1);
    ScanPositions(input, Matches(input), 0, 1, 1);
    assert r[..0] == [];
    forall i | 0 <= i < |r| - 1 ensures r[i].kind != EndOfInput && r[i].kind != Star {
      assert Shaped(r[i].kind, r[i].value);
    }
  }

  // ---------------------------------------------------------------------
  // Which alternative wins
  // ---------------------------------------------------------------------

  /** Digits followed by `*` (or a `*` alone) are a repeat prefix, taking
      the digits after the `*` too: `1*`, `*`, `2*4`. */
  lemma RepeatWins(input: string, pos: nat, q: nat)
    requires pos <= q < |input| && input[q] == '*'
    requires forall i :: pos <= i < q ==> IsDigit(input[i])
    ensures Recognise(input, pos) == Some((Repeat, q - pos + 1 + Run(input, q + 1, IsDigit)))
  {
    var n := q - pos + 1 + Run(input, q + 1, IsDigit);
    assert FirstMatchAt(input, pos, 4, n) by {
      RepeatRecognised(input, pos, q);
      DigitSkipsLayout(input, pos);
    }
    FirstMatchGivesToken(input, pos, 4, n);
  }

  /** Digits up to a `*` and the digits after it make a repetition. */
  lemma RepeatRecognised(input: string, pos: nat, q: nat)
    requires pos <= q < |input| && input[q] == '*'
    requires forall i :: pos <= i < q ==> IsDigit(input[i])
    ensures Recogniser(Order[4], input, pos) == Some(q - pos + 1 + Run(input, q + 1, IsDigit))
  {
    assert Run(input, pos, IsDigit) == q - pos;
    assert Order[4] == Repeat;
  }

  /** At a digit or a `*`, neither blanks, comments, line ends nor names
      match. */
  lemma DigitSkipsLayout(input: string, pos: nat)
    requires pos < |input| && (IsDigit(input[pos]) || input[pos] == '*')
    ensures forall j :: 0 <= j < 4 ==> Recogniser(Order[j], input, pos).None?
  {
    forall j | 0 <= j < 4 ensures Recogniser(Order[j], input, pos).None? {
      assert Run(input, pos, IsBlank) == 0;
    }
  }

  /** A run of digits not followed by `*` is one integer token, the whole run. */
  lemma IntegerWholeRun(input: string, pos: nat)
    requires pos < |input| && IsDigit(input[pos])
    requires var d := Run(input, pos, IsDigit); pos + d == |input| || input[pos + d] != '*'
    ensures Recognise(input, pos) == Some((Integer, Run(input, pos, IsDigit)))
  {
    var d := Run(input, pos, IsDigit);
    assert Order[5] == Integer;
    forall j | 0 <= j < 5 ensures Recogniser(Order[j], input, pos).None? {
      assert Run(input, pos, IsBlank) == 0;
    }
    FirstMatchGivesToken(input, pos, 5, d);
  }

  /** A letter starts a rule name that runs over letters, digits and `-`. */
  lemma LetterStartsName(input: string, pos: nat)
    requires pos < |input| && IsLetter(input[pos])
    ensures Recognise(input, pos) == Some((RuleName, 1 + Run(input, pos + 1, IsNameChar)))
  {
    assert Order[3] == RuleName;
    forall j | 0 <= j < 3 ensures Recogniser(Order[j], input, pos).None? {
      assert Run(input, pos, IsBlank) == 0;
    }
    FirstMatchGivesToken(input, pos, 3, 1 + Run(input, pos + 1, IsNameChar));
  }

  /** At a `%`, the recognisers before the value range do not match. */
  lemma PercentSkipsEarlier(input: string, pos: nat)
    requires pos < |input| && input[pos] == '%'
    ensures forall j :: 0 <= j < 9 ==> Recogniser(Order[j], input, pos).None?
  {
    forall j | 0 <= j < 9 ensures Recogniser(Order[j], input, pos).None? {
      assert Run(input, pos, IsBlank) == 0;
      assert Run(input, pos, IsDigit) == 0;
    }
  }

  /** `%x41-5A` is a value range, not the numeric value `%x41` followed by
      more text: the range alternative is tried first. */
  lemma RangeBeforeNumber(input: string, pos: nat)
    requires pos < |input| && RangeText(input, pos).Some?
    ensures Recognise(input, pos) == Some((ValueRange, RangeText(input, pos).value))
  {
    PercentSkipsEarlier(input, pos);
    assert Order[9] == ValueRange;
    FirstMatchGivesToken(input, pos, 9, RangeText(input, pos).value);
  }

  /** Otherwise `%` with a base letter and hex digits is a numeric value. */
  lemma NumberWhenNoRange(input: string, pos: nat)
    requires pos < |input| && RangeText(input, pos).None? && NumText(input, pos).Some?
    ensures Recognise(input, pos) == Some((NumVal, NumText(input, pos).value))
  {
    PercentSkipsEarlier(input, pos);
    assert Order[10] == NumVal;
    FirstMatchGivesToken(input, pos, 10, NumText(input, pos).value);
  }

  // ---------------------------------------------------------------------
  // Examples
  // ---------------------------------------------------------------------

  /** `1*` is one repeat token; the end token is at column 3. */
  lemma ScanRepeatPrefix()
    ensures Scan("1*") == [Token(Repeat, "1*", 1, 1), Token(EndOfInput, "", 1, 3)]
  {
    var input := "1*";
    var m := Matches(input);
    RepeatWins(input, 0, 1);
    assert Run(input, 2, IsDigit) == 0;
    assert m(0) == Some((Repeat, 2));
    ScanEmits(input, m, 0, 1, 1, Repeat, 2);
    assert input[0..2] == input;
    assert Advance(1, 1, input) == (1, 3);
    ScanAtEnd(input, m, 1, 3);
  }

  /** A character no alternative matches is dropped without a trace. */
  lemma ScanDropsUnknown()
    ensures Scan("#") == [Token(EndOfInput, "", 1, 1)]
  {
    var input := "#";
    var m := Matches(input);
    RecogniseIsFirstMatch(input, 0);
    forall j | 0 <= j < |Order| ensures Recogniser(Order[j], input, 0).None? {
      assert Run(input, 0, IsBlank) == 0;
      assert Run(input, 0, IsDigit) == 0;
    }
    assert m(0).None?;
    ScanSkips(input, m, 0, 1, 1);
    ScanAtEnd(input, m, 1, 1);
  }

  /** A carriage return alone is a line break token, but only a line feed
      starts a new line: after `\r` the scan is still on line 1. */
  lemma ScanLoneCarriageReturn()
    ensures Scan("\r") == [Token(CRLF, "\r", 1, 1), Token(EndOfInput, "", 1, 2)]
  {
    var input := "\r";
    var m := Matches(input);
    assert Order[2] == CRLF;
    forall j | 0 <= j < 2 ensures Recogniser(Order[j], input, 0).None? {
      assert Run(input, 0, IsBlank) == 0;
    }
    FirstMatchGivesToken(input, 0, 2, 1);
    assert m(0) == Some((CRLF, 1));
    ScanEmits(input, m, 0, 1, 1, CRLF, 1);
    assert input[0..1] == input;
    assert Advance(1, 1, input) == (1, 2);
    ScanAtEnd(input, m, 1, 2);
  }
}
