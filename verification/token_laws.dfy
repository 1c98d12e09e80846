/** What the token decoders give back: quoted text without its quotes,
    `%x` values as the characters they name, repeat prefixes as their
    bounds, and the refusals for everything else. */
module TokenLaws {
  import opened Wrappers
  import opened Text
  import opened Errors
  import opened Numbers
  import opened Tokens

  // ---------------------------------------------------------------------
  // Literal text
  // ---------------------------------------------------------------------

  /** A quoted literal gives back the text between its quotes, whatever
      character closes it. */
  lemma UnquoteRoundTrip(open: char, text: string, close: char)
    requires IsQuote(open)
    ensures Unquote([open] + text + [close]) == text
  {
    assert ([open] + text + [close])[1..|text| + 1] == text;
  }

  /** A value that does not open with a quote is kept whole. */
  lemma UnquotedKept(v: string)
    requires |v| == 0 || !IsQuote(v[0])
    ensures Unquote(v) == v
  {}

  /** A double- or single-quoted token decodes to the text between its quotes. */
  lemma CharValRoundTrip(kind: TokenKind, text: string, line: int, column: int)
    requires kind == CharVal || kind == CaseSensitiveCharVal
    ensures GetStringValue(Token(kind, "\"" + text + "\"", line, column)) == Ok(text)
    ensures GetStringValue(Token(kind, "'" + text + "'", line, column)) == Ok(text)
  {
    UnquoteRoundTrip('"', text, '"');
    UnquoteRoundTrip('\'', text, '\'');
  }

  // ---------------------------------------------------------------------
  // Percent-encoded text
  // ---------------------------------------------------------------------

  /** The hexadecimal segments of a list of codes. */
  function HexSegments(codes: seq<nat>): (segments: seq<string>)
    ensures |segments| == |codes|
  {
    seq(|codes|, i requires 0 <= i < |codes| => Hex(codes[i]))
  }

  /** A hexadecimal segment holds no `.` and reads back as its code. */
  lemma HexSegmentDecodes(n: nat)
    requires n <= IntMax
    ensures ParseHexInt32(Hex(n)) == Ok(n)
    ensures '.' !in Hex(n) && |Hex(n)| > 0
  {
    DigitsRoundTrip(n, 16);
    assert !IsDigitOf('.', 16);
  }

  /** Printing codes as a `%x` value and decoding the token gives one
      character per code: the code itself, or U+FFFD for a surrogate. */
  lemma PercentRoundTrip(codes: seq<nat>, line: int, column: int)
    requires |codes| >= 1
    requires forall i :: 0 <= i < |codes| ==> codes[i] <= IntMax
    ensures var v := "%x" + Join(HexSegments(codes), '.');
      GetStringValue(Token(NumVal, v, line, column)) ==
        Ok(seq(|codes|, i requires 0 <= i < |codes| => CharOfCode(codes[i])))
  {
    var segments := HexSegments(codes);
    forall i | 0 <= i < |codes|
      ensures ParseHexInt32(segments[i]) == Ok(codes[i])
      ensures '.' !in segments[i] && |segments[i]| > 0
    {
      HexSegmentDecodes(codes[i]);
    }
    var v := "%x" + Join(segments, '.');
    assert v[2..] == Join(segments, '.');
    assert |Hex(codes[0])| > 0;
    assert |Join(segments, '.')| > 0 by {
      if |segments| > 1 {
        assert Join(segments, '.') == segments[0] + ['.'] + Join(segments[1..], '.');
      }
    }
    assert HexPrefixed(v);
    SplitJoin(segments, '.');
    var r := DecodeSegments(segments, v);
    assert r.Ok?;
    assert r.value == seq(|codes|, i requires 0 <= i < |codes| => CharOfCode(codes[i]));
  }

  /** A code outside the surrogate block below 0x10000 decodes to the
      character with that code. */
  lemma CharOfPlainCode(n: nat)
    requires n < 0xD800 || 0xE000 <= n < 0x1_0000
    ensures CharOfCode(n) as int == n
  {}

  lemma CrLfCodes()
    ensures ParseHexInt32("0D") == Ok(13) && ParseHexInt32("0A") == Ok(10)
  {
    assert "0D"[..1] == "0" && "0A"[..1] == "0";
    assert DigitsValue("0", 16) == 0 by {
      assert "0"[..0] == "";
    }
    assert DigitsValue("0D", 16) == 13;
    assert DigitsValue("0A", 16) == 10;
  }

  lemma CrLfCharacters()
    ensures CharOfCode(13) == '\r' && CharOfCode(10) == '\n'
  {}

  lemma CrLfSegments()
    ensures "%x0D.0A"[2..] == Join(["0D", "0A"], '.')
    ensures Split("%x0D.0A"[2..], '.') == ["0D", "0A"]
  {
    assert "%x0D.0A"[2..] == "0D.0A";
    assert Join(["0D", "0A"], '.') == "0D.0A";
    SplitJoin(["0D", "0A"], '.');
  }

  lemma CrLfSegmentsDecode()
    ensures DecodeSegments(["0D", "0A"], "%x0D.0A") == Ok("\r\n")
  {
    CrLfCodes();
    CrLfCharacters();
    assert ["0D", "0A"][1..] == ["0A"];
    assert DecodeSegments(["0A"], "%x0D.0A") == Ok("\n") by {
      assert ["0A"][1..] == [];
      assert DecodeSegments([], "%x0D.0A") == Ok("");
      assert [CharOfCode(10)] + "" == "\n";
    }
    assert [CharOfCode(13)] + "\n" == "\r\n";
  }

  /** `%x0D.0A` is carriage return, line feed. */
  lemma CrLfDecodes()
    ensures GetStringValue(Token(NumVal, "%x0D.0A", 1, 1)) == Ok("\r\n")
  {
    CrLfSegments();
    CrLfSegmentsDecode();
    assert HexPrefixed("%x0D.0A");
  }

  /** Only hexadecimal percent values decode: `%d65` is refused. */
  lemma DecimalPercentRefused()
    ensures GetStringValue(Token(NumVal, "%d65", 1, 1)) ==
      Err(NotSupported("Only %x... notation is supported: %d65"))
  {
    var v := "%d65";
    assert v[1] == 'd' && Upper('d') == 'D';
    assert !HexPrefixed(v);
    assert "Only %x... notation is supported: " + v == "Only %x... notation is supported: %d65";
  }

  /** An empty segment is refused, naming the whole value. */
  lemma EmptySegmentRefused(a: string, b: string)
    requires '.' !in a && '.' !in b
    ensures var v := "%x" + a + ".." + b;
      GetStringValue(Token(NumVal, v, 1, 1)).Err?
  {
    var v := "%x" + a + ".." + b;
    assert v[2..] == Join([a, "", b], '.') by {
      assert [a, "", b][1..] == ["", b];
      assert Join(["", b], '.') == "" + ['.'] + b;
    }
    SplitJoin([a, "", b], '.');
  }

  // ---------------------------------------------------------------------
  // Repeat bounds
  // ---------------------------------------------------------------------

  /** The text of an optional bound: nothing, or its decimal digits. */
  function BoundText(b: Option<nat>): string {
    match b
    case None => ""
    case Some(n) => ToDigits(n, 10)
  }

  lemma BoundTextDecodes(b: Option<nat>)
    requires b.Some? ==> b.value <= IntMax
    ensures BoundOf(BoundText(b)).Ok?
    ensures BoundOf(BoundText(b)).value == if b.Some? then Some(b.value as int) else None
    ensures '*' !in BoundText(b)
  {
    if b.Some? {
      DigitsRoundTrip(b.value, 10);
      assert !IsDigitOf('*', 10);
    }
  }

  /** A repeat prefix printed from its bounds decodes to those bounds. */
  lemma RepeatRoundTrip(min: Option<nat>, max: Option<nat>, line: int, column: int)
    requires min.Some? ==> min.value <= IntMax
    requires max.Some? ==> max.value <= IntMax
    ensures GetRepetitionBounds(Token(Repeat, BoundText(min) + "*" + BoundText(max), line, column)) ==
      Ok((if min.Some? then Some(min.value as int) else None, if max.Some? then Some(max.value as int) else None))
  {
    BoundTextDecodes(min);
    BoundTextDecodes(max);
    var v := BoundText(min) + "*" + BoundText(max);
    assert v == Join([BoundText(min), BoundText(max)], '*');
    SplitJoin([BoundText(min), BoundText(max)], '*');
  }

  /** `*`, `1*`, `*5` and `1*3`. */
  lemma RepeatExamples()
    ensures ToDigits(1, 10) == "1" && ToDigits(5, 10) == "5" && ToDigits(3, 10) == "3"
    ensures GetRepetitionBounds(Token(Repeat, "*", 1, 1)) == Ok((None, None))
    ensures GetRepetitionBounds(Token(Repeat, "1*", 1, 1)) == Ok((Some(1), None))
    ensures GetRepetitionBounds(Token(Repeat, "*5", 1, 1)) == Ok((None, Some(5)))
    ensures GetRepetitionBounds(Token(Repeat, "1*3", 1, 1)) == Ok((Some(1), Some(3)))
  {
    assert BoundText(Some(1)) + "*" + BoundText(None) == "1*";
    assert BoundText(None) + "*" + BoundText(Some(5)) == "*5";
    assert BoundText(Some(1)) + "*" + BoundText(Some(3)) == "1*3";
    RepeatRoundTrip(None, None, 1, 1);
    RepeatRoundTrip(Some(1), None, 1, 1);
    RepeatRoundTrip(None, Some(5), 1, 1);
    RepeatRoundTrip(Some(1), Some(3), 1, 1);
  }

  /** Only a `Repeat` token has bounds. */
  lemma BoundsOnlyForRepeat(t: Token)
    requires t.kind != Repeat
    ensures GetRepetitionBounds(t).Err?
    ensures GetRepetitionBounds(t).error.InvalidOperation?
  {}
}
