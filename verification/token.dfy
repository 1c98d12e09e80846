/** Tokens of ABNF text and the two decoders the parser calls on them:
    the text of a quoted or percent-encoded value, and the bounds of a
    repeat prefix (RFC 5234 sections 3.6 and 4). */
module Tokens {
  import opened Wrappers
  import opened Text
  import opened Errors
  import opened Numbers

  datatype TokenKind =
    | Repeat               // `1*2`, `1*`, `*2`, `*`
    | Integer              // `42`
    | Whitespace
    | Comment
    | CRLF
    | RuleName
    | CharVal              // double-quoted, case-insensitive
    | CaseSensitiveCharVal // single-quoted, case-sensitive (RFC 7405)
    | ProseVal             // `<...>`
    | NumVal               // `%x0D.0A`
    | ValueRange           // `%x41-5A`
    | Equal
    | Slash
    | Star
    | OpenParen
    | CloseParen
    | OpenBracket
    | CloseBracket
    | OpenAngle
    | CloseAngle
    | Percent
    | OtherSymbol
    | EndOfInput

  /** The kind's name as the enum prints it in messages. */
  function KindName(k: TokenKind): string {
    match k
    case Repeat => "Repeat"
    case Integer => "Integer"
    case Whitespace => "Whitespace"
    case Comment => "Comment"
    case CRLF => "CRLF"
    case RuleName => "RuleName"
    case CharVal => "CharVal"
    case CaseSensitiveCharVal => "CaseSensitiveCharVal"
    case ProseVal => "ProseVal"
    case NumVal => "NumVal"
    case ValueRange => "ValueRange"
    case Equal => "Equal"
    case Slash => "Slash"
    case Star => "Star"
    case OpenParen => "OpenParen"
    case CloseParen => "CloseParen"
    case OpenBracket => "OpenBracket"
    case CloseBracket => "CloseBracket"
    case OpenAngle => "OpenAngle"
    case CloseAngle => "CloseAngle"
    case Percent => "Percent"
    case OtherSymbol => "OtherSymbol"
    case EndOfInput => "EndOfInput"
  }

  /** A token: its kind, the text it was scanned from, and the 1-based
      line and column where that text starts. */
  datatype Token = Token(kind: TokenKind, value: string, line: int, column: int)

  // ---------------------------------------------------------------------
  // Literal text
  // ---------------------------------------------------------------------

  predicate IsQuote(c: char) { c == '"' || c == '\'' }

  /** A value of two or more characters that opens with a quote loses its
      first and last character; any other value is kept. The closing
      character is not checked. */
  function Unquote(v: string): (r: string)
    ensures |v| >= 2 && IsQuote(v[0]) ==> |r| == |v| - 2 && forall i :: 0 <= i < |r| ==> r[i] == v[i + 1]
    ensures !(|v| >= 2 && IsQuote(v[0])) ==> r == v
  {
    if |v| >= 2 && IsQuote(v[0]) then v[1..|v| - 1] else v
  }

  /** The `.`-separated hexadecimal segments of a `%x` value, one character
      each (the low 16 bits of the parsed `int`); the first segment that is
      empty or does not parse is the error. */
  function DecodeSegments(segments: seq<string>, value: string): (r: Result<string, Error>)
    ensures r.Ok? <==> forall i :: 0 <= i < |segments| ==> (|segments[i]| > 0 && ParseHexInt32(segments[i]).Ok?)
    ensures r.Ok? ==> (|r.value| == |segments| &&
      forall i :: 0 <= i < |segments| ==> r.value[i] == CharOfCode(ParseHexInt32(segments[i]).value))
    ensures r.Err? ==> exists i :: (0 <= i < |segments| &&
      (forall j :: 0 <= j < i ==> |segments[j]| > 0 && ParseHexInt32(segments[j]).Ok?) &&
      (if |segments[i]| == 0 then r.error == FormatError("Empty byte in percent notation: " + value)
       else ParseHexInt32(segments[i]) == Err(r.error)))
  {
    if |segments| == 0 then Ok("")
    else if |segments[0]| == 0 then Err(FormatError("Empty byte in percent notation: " + value))
    else
      var code :- ParseHexInt32(segments[0]);
      var rest := DecodeSegments(segments[1..], value);
      if rest.Err? then
        assert forall j :: 1 <= j < |segments| ==> segments[j] == segments[1..][j - 1];
        Err(rest.error)
      else
        Ok([CharOfCode(code)] + rest.value)
  }

  /** Whether a `%x` value is accepted by the decoder's prefix check:
      at least three characters, `%`, then `x` in either case. */
  predicate HexPrefixed(v: string) {
    |v| >= 3 && v[0] == '%' && Upper(v[1]) == 'X'
  }

  /** `Token.GetStringValue` (and the identical `Token.StringValue` of the
      second parser copy): the unquoted text of a quoted literal, the
      characters of a `%x` value, the raw text of a value range; other
      kinds, and `%d`/`%b` values, are refused. */
  function GetStringValue(t: Token): (r: Result<string, Error>)
    ensures (t.kind == CharVal || t.kind == CaseSensitiveCharVal) ==> r == Ok(Unquote(t.value))
    ensures t.kind == ValueRange ==> r == Ok(t.value)
    ensures t.kind == NumVal && !HexPrefixed(t.value) ==>
      r == Err(NotSupported("Only %x... notation is supported: " + t.value))
    ensures t.kind == NumVal && HexPrefixed(t.value) ==> (r.Ok? ==> |r.value| == |Split(t.value[2..], '.')|)
    ensures t.kind !in {CharVal, CaseSensitiveCharVal, NumVal, ValueRange} ==>
      r == Err(InvalidOperation("Token is not a CharVal, NumVal, or ValueRange: " + KindName(t.kind)))
  {
    if t.kind == CharVal || t.kind == CaseSensitiveCharVal then Ok(Unquote(t.value))
    else if t.kind == NumVal then
      if !HexPrefixed(t.value) then Err(NotSupported("Only %x... notation is supported: " + t.value))
      else DecodeSegments(Split(t.value[2..], '.'), t.value)
    else if t.kind == ValueRange then Ok(t.value)
    else Err(InvalidOperation("Token is not a CharVal, NumVal, or ValueRange: " + KindName(t.kind)))
  }

  // ---------------------------------------------------------------------
  // Repeat bounds
  // ---------------------------------------------------------------------

  /** An optional bound: absent when its text is empty, else the parsed
      decimal value. */
  function BoundOf(text: string): (r: Result<Option<int>, Error>)
    ensures text == "" ==> r == Ok(None)
    ensures text != "" ==> (r.Ok? <==> ToInt32(text, 10).Ok?)
    ensures text != "" && r.Ok? ==> r.value == Some(ToInt32(text, 10).value)
  {
    if text == "" then Ok(None)
    else
      var n :- ToInt32(text, 10);
      Ok(Some(n))
  }

  /** `Token.GetRepetitionBounds`: the text before the first `*` is the
      minimum and the text after it (up to any second `*`) the maximum;
      an empty side is absent. Only a `Repeat` token has bounds. */
  function GetRepetitionBounds(t: Token): (r: Result<(Option<int>, Option<int>), Error>)
    ensures t.kind != Repeat ==> r == Err(InvalidOperation("Token is not a Repeat: " + KindName(t.kind)))
    ensures t.kind == Repeat ==> var parts := Split(t.value, '*');
      (r.Ok? <==> BoundOf(parts[0]).Ok? && (|parts| > 1 ==> BoundOf(parts[1]).Ok?)) &&
      (r.Ok? ==> r.value.0 == BoundOf(parts[0]).value &&
                 r.value.1 == (if |parts| > 1 then BoundOf(parts[1]).value else None))
  {
    if t.kind != Repeat then Err(InvalidOperation("Token is not a Repeat: " + KindName(t.kind)))
    else
      var parts := Split(t.value, '*');
      var min :- BoundOf(parts[0]);
      var max :- if |parts| > 1 then BoundOf(parts[1]) else Ok(None);
      Ok((min, max))
  }
}
