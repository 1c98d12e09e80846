/** The lexer: at each position the token recognisers are tried in a fixed
    order and the first that matches gives the token; a character that no
    recogniser matches is skipped. Every token records the line and column
    reached by the text of the tokens before it, and the output ends with
    an `EndOfInput` token. */
module Scanning {
  import opened Wrappers
  import opened Text
  import opened Tokens

  // ---------------------------------------------------------------------
  // Character runs
  // ---------------------------------------------------------------------

  predicate IsBlank(c: char) { c == ' ' || c == '\t' }
  predicate IsNameChar(c: char) { IsLetter(c) || IsDigit(c) || c == '-' }
  predicate IsLineBreak(c: char) { c == '\r' || c == '\n' }
  predicate InLine(c: char) { !IsLineBreak(c) }

  /** The length of the longest run of characters satisfying `p` from `pos`. */
  function Run(input: string, pos: nat, p: char -> bool): (n: nat)
    requires pos <= |input|
    ensures pos + n <= |input|
    ensures forall i :: pos <= i < pos + n ==> p(input[i])
    ensures pos + n == |input| || !p(input[pos + n])
    decreases |input| - pos
  {
    if pos < |input| && p(input[pos]) then 1 + Run(input, pos + 1, p) else 0
  }

  /** An opening character, any characters but the closing one, and the
      closing one; nothing when the closing character never comes. */
  function Quoted(input: string, pos: nat, open: char, close: char): (r: Option<nat>)
    requires pos < |input|
    ensures r.Some? ==> 2 <= r.value <= |input| - pos
  {
    if input[pos] != open then None
    else
      var n := Run(input, pos + 1, c => c != close);
      if pos + 1 + n < |input| then Some(n + 2) else None
  }

  /** The greedy repetition of `.` followed by at least one hex digit. */
  function DotGroups(input: string, pos: nat): (n: nat)
    requires pos <= |input|
    ensures pos + n <= |input|
    decreases |input| - pos
  {
    if pos + 1 < |input| && input[pos] == '.' && IsHexDigit(input[pos + 1]) then
      var h := Run(input, pos + 1, IsHexDigit);
      1 + h + DotGroups(input, pos + 1 + h)
    else 0
  }

  function Single(input: string, pos: nat, c: char): Option<nat>
    requires pos < |input|
  {
    if input[pos] == c then Some(1) else None
  }

  /** `%` and a base letter. */
  predicate PercentBase(input: string, pos: nat)
    requires pos < |input|
  {
    input[pos] == '%' && pos + 1 < |input| && IsBaseLetter(input[pos + 1])
  }

  // ---------------------------------------------------------------------
  // Recognisers
  // ---------------------------------------------------------------------

  function Blank(input: string, pos: nat): (r: Option<nat>)
    requires pos < |input|
    ensures r.Some? ==> 1 <= r.value <= |input| - pos
  {
    var n := Run(input, pos, IsBlank);
    if n > 0 then Some(n) else None
  }

  function CommentText(input: string, pos: nat): (r: Option<nat>)
    requires pos < |input|
    ensures r.Some? ==> 1 <= r.value <= |input| - pos
  {
    if input[pos] == ';' then Some(1 + Run(input, pos + 1, InLine)) else None
  }

  function LineBreak(input: string, pos: nat): (r: Option<nat>)
    requires pos < |input|
    ensures r.Some? ==> 1 <= r.value <= |input| - pos
  {
    if input[pos] == '\r' && pos + 1 < |input| && input[pos + 1] == '\n' then Some(2)
    else if IsLineBreak(input[pos]) then Some(1)
    else None
  }

  function Name(input: string, pos: nat): (r: Option<nat>)
    requires pos < |input|
    ensures r.Some? ==> 1 <= r.value <= |input| - pos
  {
    if IsLetter(input[pos]) then Some(1 + Run(input, pos + 1, IsNameChar)) else None
  }

  function RepeatText(input: string, pos: nat): (r: Option<nat>)
    requires pos < |input|
    ensures r.Some? ==> 1 <= r.value <= |input| - pos
  {
    var d := Run(input, pos, IsDigit);
    if pos + d < |input| && input[pos + d] == '*' then Some(d + 1 + Run(input, pos + d + 1, IsDigit))
    else None
  }

  /** `[0-9]+(?!\*)`: when the run is followed by `*`, the pattern
      backtracks one digit, which the lookahead then accepts. */
  function IntegerText(input: string, pos: nat): (r: Option<nat>)
    requires pos < |input|
    ensures r.Some? ==> 1 <= r.value <= |input| - pos
  {
    var d := Run(input, pos, IsDigit);
    if d == 0 then None
    else if pos + d < |input| && input[pos + d] == '*' then (if d >= 2 then Some(d - 1) else None)
    else Some(d)
  }

  function RangeText(input: string, pos: nat): (r: Option<nat>)
    requires pos < |input|
    ensures r.Some? ==> 1 <= r.value <= |input| - pos
  {
    if !PercentBase(input, pos) then None
    else
      var h1 := Run(input, pos + 2, IsHexDigit);
      var q := pos + 2 + h1;
      if h1 > 0 && q < |input| && input[q] == '-' then
        var h2 := Run(input, q + 1, IsHexDigit);
        if h2 > 0 then Some(h1 + h2 + 3) else None
      else None
  }

  function NumText(input: string, pos: nat): (r: Option<nat>)
    requires pos < |input|
    ensures r.Some? ==> 1 <= r.value <= |input| - pos
  {
    if !PercentBase(input, pos) then None
    else
      var h1 := Run(input, pos + 2, IsHexDigit);
      if h1 > 0 then Some(2 + h1 + DotGroups(input, pos + 2 + h1)) else None
  }

  /** `%` not followed by a base letter. */
  function LonePercent(input: string, pos: nat): (r: Option<nat>)
    requires pos < |input|
    ensures r.Some? ==> 1 <= r.value <= |input| - pos
  {
    if input[pos] == '%' && (pos + 1 == |input| || !IsBaseLetter(input[pos + 1])) then Some(1) else None
  }

  /** The length of the text the recogniser of kind `k` matches at `pos`,
      if it matches: the corresponding alternative of the lexer's pattern. */
  function Recogniser(k: TokenKind, input: string, pos: nat): (r: Option<nat>)
    requires pos < |input|
    ensures r.Some? ==> 1 <= r.value <= |input| - pos
  {
    match k
    case Whitespace => Blank(input, pos)
    case Comment => CommentText(input, pos)
    case CRLF => LineBreak(input, pos)
    case RuleName => Name(input, pos)
    case Repeat => RepeatText(input, pos)
    case Integer => IntegerText(input, pos)
    case CharVal => Quoted(input, pos, '"', '"')
    case CaseSensitiveCharVal => Quoted(input, pos, '\'', '\'')
    case ProseVal => Quoted(input, pos, '<', '>')
    case ValueRange => RangeText(input, pos)
    case NumVal => NumText(input, pos)
    case Equal => Single(input, pos, '=')
    case Slash => Single(input, pos, '/')
    case Star => Single(input, pos, '*')
    case OpenParen => Single(input, pos, '(')
    case CloseParen => Single(input, pos, ')')
    case OpenBracket => Single(input, pos, '[')
    case CloseBracket => Single(input, pos, ']')
    case OpenAngle => Single(input, pos, '<')
    case CloseAngle => Single(input, pos, '>')
    case Percent => LonePercent(input, pos)
    case OtherSymbol => Single(input, pos, '-')
    case EndOfInput => None
  }

  /** The order in which the alternatives are tried. */
  const Order: seq<TokenKind> := [
    Whitespace, Comment, CRLF, RuleName, Repeat, Integer, CharVal, CaseSensitiveCharVal,
    ProseVal, ValueRange, NumVal, Equal, Slash, Star, OpenParen, CloseParen, OpenBracket,
    CloseBracket, OpenAngle, CloseAngle, Percent, OtherSymbol
  ]

  /** The first recogniser from index `i` of the order that matches. */
  function FirstFrom(input: string, pos: nat, i: nat): (r: Option<(TokenKind, nat)>)
    requires pos < |input| && i <= |Order|
    ensures r.Some? ==> 1 <= r.value.1 <= |input| - pos
    decreases |Order| - i
  {
    if i == |Order| then None
    else
      match Recogniser(Order[i], input, pos)
      case Some(n) => Some((Order[i], n))
      case None => FirstFrom(input, pos, i + 1)
  }

  /** The token at `pos`: the kind and length of the first recogniser in the
      order that matches (see `RecogniseIsFirstMatch`). */
  function Recognise(input: string, pos: nat): (r: Option<(TokenKind, nat)>)
    requires pos < |input|
    ensures r.Some? ==> 1 <= r.value.1 <= |input| - pos
  {
    FirstFrom(input, pos, 0)
  }

  /** Whether the recogniser at index `j` of the order is the first one that
      matches at `pos`, matching `n` characters. */
  predicate FirstMatchAt(input: string, pos: nat, j: nat, n: nat)
    requires pos < |input| && j < |Order|
  {
    && Recogniser(Order[j], input, pos) == Some(n)
    && forall m :: 0 <= m < j ==> Recogniser(Order[m], input, pos).None?
  }

  /** One step of the search: the recogniser at `i` decides, or the search
      moves on. */
  lemma FirstFromStep(input: string, pos: nat, i: nat)
    requires pos < |input| && i < |Order|
    ensures Recogniser(Order[i], input, pos).Some? ==>
      FirstFrom(input, pos, i) == Some((Order[i], Recogniser(Order[i], input, pos).value))
    ensures Recogniser(Order[i], input, pos).None? ==> FirstFrom(input, pos, i) == FirstFrom(input, pos, i + 1)
  {}

  lemma {:induction false} FirstFromIsFirstMatch(input: string, pos: nat, i: nat)
    requires pos < |input| && i <= |Order|
    requires forall m :: 0 <= m < i ==> Recogniser(Order[m], input, pos).None?
    ensures var r := FirstFrom(input, pos, i);
      && (r.Some? ==> exists j :: i <= j < |Order| && Order[j] == r.value.0 && FirstMatchAt(input, pos, j, r.value.1))
      && (r.None? <==> forall m :: 0 <= m < |Order| ==> Recogniser(Order[m], input, pos).None?)
    decreases |Order| - i
  {
    if i == |Order| {
      assert forall m :: 0 <= m < |Order| ==> Recogniser(Order[m], input, pos).None?;
    } else {
      FirstFromStep(input, pos, i);
      var here := Recogniser(Order[i], input, pos);
      if here.Some? {
        assert FirstMatchAt(input, pos, i, here.value);
      } else {
        FirstFromIsFirstMatch(input, pos, i + 1);
      }
    }
  }

  /** The alternatives are tried in order: the scanner's token at `pos` is
      the first recogniser in the order that matches, and there is none
      exactly when no recogniser matches. */
  lemma RecogniseIsFirstMatch(input: string, pos: nat)
    requires pos < |input|
    ensures var r := Recognise(input, pos);
      && (r.Some? ==> exists j :: 0 <= j < |Order| && Order[j] == r.value.0 && FirstMatchAt(input, pos, j, r.value.1))
      && (r.None? <==> forall m :: 0 <= m < |Order| ==> Recogniser(Order[m], input, pos).None?)
  {
    FirstFromIsFirstMatch(input, pos, 0);
  }

  /** So when the recogniser at index `j` is the first to match, it gives the token. */
  lemma FirstMatchGivesToken(input: string, pos: nat, j: nat, n: nat)
    requires pos < |input| && j < |Order|
    requires FirstMatchAt(input, pos, j, n)
    ensures Recognise(input, pos) == Some((Order[j], n))
  {
    RecogniseIsFirstMatch(input, pos);
    var r := Recognise(input, pos);
    var k :| 0 <= k < |Order| && Order[k] == r.value.0 && FirstMatchAt(input, pos, k, r.value.1);
  }

  // ---------------------------------------------------------------------
  // Lines and columns
  // ---------------------------------------------------------------------

  /** The line and column after `text`, starting from `(line, column)`:
      a line feed starts the next line at column 1, any other character,
      a carriage return included, moves one column on. */
  function Advance(line: int, column: int, text: string): (r: (int, int))
    decreases |text|
  {
    if |text| == 0 then (line, column)
    else if text[0] == '\n' then Advance(line + 1, 1, text[1..])
    else Advance(line, column + 1, text[1..])
  }

  /** The text of a list of tokens, concatenated. */
  function TextOf(tokens: seq<Token>): string {
    if |tokens| == 0 then "" else tokens[0].value + TextOf(tokens[1..])
  }

  // ---------------------------------------------------------------------
  // The scan
  // ---------------------------------------------------------------------

  /** What the lexer's pattern matches at each position of the input: the
      kind and length of the token there, if any. */
  type Matcher = nat -> Option<(TokenKind, nat)>

  /** Every match lies inside the input and is not empty. */
  predicate Fits(input: string, m: Matcher) {
    forall p: nat :: p < |input| && m(p).Some? ==> 1 <= m(p).value.1 <= |input| - p
  }

  /** The lexer's pattern over `input`. */
  function Matches(input: string): (m: Matcher)
    ensures Fits(input, m)
    ensures forall p: nat :: p < |input| ==> m(p) == Recognise(input, p)
  {
    (p: nat) => if p < |input| then Recognise(input, p) else None
  }

  /** The tokens from `pos`, the first starting at `(line, column)`: at each
      position the match, if there is one, is emitted and the scan goes on
      after it; a position with no match is passed over. */
  function ScanFrom(input: string, m: Matcher, pos: nat, line: int, column: int): (r: seq<Token>)
    requires pos <= |input| && Fits(input, m)
    ensures |r| >= 1
    decreases |input| - pos
  {
    if pos == |input| then [Token(EndOfInput, "", line, column)]
    else
      var found := m(pos);
      if found.None? then ScanFrom(input, m, pos + 1, line, column)
      else
        var value := input[pos..pos + found.value.1];
        var next := Advance(line, column, value);
        [Token(found.value.0, value, line, column)] + ScanFrom(input, m, pos + found.value.1, next.0, next.1)
  }

  /** `Scanner.Scan`: the whole input from line 1, column 1. */
  function Scan(input: string): seq<Token> {
    ScanFrom(input, Matches(input), 0, 1, 1)
  }

  /** Advancing over two texts one after the other is advancing over both. */
  lemma {:induction false} AdvanceConcat(line: int, column: int, a: string, b: string)
    ensures Advance(line, column, a + b) ==
      Advance(Advance(line, column, a).0, Advance(line, column, a).1, b)
    decreases |a|
  {
    if |a| > 0 {
      assert (a + b)[0] == a[0];
      assert (a + b)[1..] == a[1..] + b;
      if a[0] == '\n' {
        AdvanceConcat(line + 1, 1, a[1..], b);
      } else {
        AdvanceConcat(line, column + 1, a[1..], b);
      }
    } else {
      assert a + b == b;
    }
  }

  /** A position with no match is passed over without moving the line or
      column. */
  lemma ScanSkips(input: string, m: Matcher, pos: nat, line: int, column: int)
    requires pos < |input| && Fits(input, m) && m(pos).None?
    ensures ScanFrom(input, m, pos, line, column) == ScanFrom(input, m, pos + 1, line, column)
  {}

  /** A match is emitted at the current line and column, and the scan goes
      on after its text from the line and column that text reaches. */
  lemma ScanEmits(input: string, m: Matcher, pos: nat, line: int, column: int, kind: TokenKind, n: nat)
    requires pos < |input| && Fits(input, m) && m(pos) == Some((kind, n))
    ensures pos + n <= |input|
    ensures var value := input[pos..pos + n];
      ScanFrom(input, m, pos, line, column) ==
        [Token(kind, value, line, column)] + ScanFrom(input, m, pos + n, Advance(line, column, value).0, Advance(line, column, value).1)
  {}

  /** At the end of the input the scan emits only the `EndOfInput` token. */
  lemma ScanAtEnd(input: string, m: Matcher, line: int, column: int)
    requires Fits(input, m)
    ensures ScanFrom(input, m, |input|, line, column) == [Token(EndOfInput, "", line, column)]
  {}

  /** The per-character update of the line and column over a token's text. */
  method AdvanceOver(line0: int, column0: int, value: string) returns (line: int, column: int)
    ensures (line, column) == Advance(line0, column0, value)
  {
    line, column := line0, column0;
    var i := 0;
    while i < |value|
      invariant 0 <= i <= |value|
      invariant Advance(line0, column0, value) == Advance(line, column, value[i..])
      decreases |value| - i
    {
      assert value[i..][0] == value[i];
      assert value[i..][1..] == value[i + 1..];
      if value[i] == '\n' {
        line, column := line + 1, 1;
      } else {
        column := column + 1;
      }
      i := i + 1;
    }
  }
}
