/** What the numeric-value decoder accepts and what its patterns match:
    printing values in ABNF's numeric notation and decoding them gives the
    values back, and malformed notations are refused. */
module ConverterLaws {
  import opened Wrappers
  import opened Text
  import opened Errors
  import opened Numbers
  import opened MatchResults
  import opened Patterns
  import opened Contexts
  import opened Matching
  import opened MatcherLaws
  import opened Converter

  /** A digit string holds neither separator. */
  lemma DigitsHaveNoSeparators(s: string, base: nat)
    requires forall i :: 0 <= i < |s| ==> IsDigitOf(s[i], base)
    ensures '-' !in s && '.' !in s
  {
    assert !IsDigitOf('-', base) && !IsDigitOf('.', base);
  }

  /** The value printed in the base the letter names. */
  function Digits(v: nat, letter: char): (s: string)
    requires BaseOf(letter).Some?
  {
    ToDigits(v, BaseOf(letter).value)
  }

  lemma BaseRange(letter: char)
    requires BaseOf(letter).Some?
    ensures 2 <= BaseOf(letter).value <= 16
  {}

  lemma DigitsDecode(v: nat, letter: char)
    requires BaseOf(letter).Some? && v <= IntMax
    ensures ToInt32(Digits(v, letter), BaseOf(letter).value) == Ok(v)
    ensures '-' !in Digits(v, letter) && '.' !in Digits(v, letter)
  {
    BaseRange(letter);
    DigitsRoundTrip(v, BaseOf(letter).value);
    DigitsHaveNoSeparators(Digits(v, letter), BaseOf(letter).value);
  }

  /** A single value: `%x41`, `%d65`, `%b1000001` all decode to the value. */
  lemma SingleValueRoundTrip(v: nat, letter: char)
    requires BaseOf(letter).Some? && v <= IntMax
    ensures ConvertNumberVal("%" + [letter] + Digits(v, letter)) == Ok(CharacterValue(v))
  {
    DigitsDecode(v, letter);
    var value := "%" + [letter] + Digits(v, letter);
    assert value[2..] == Digits(v, letter);
  }

  /** A range: `%x41-5A` decodes to the inclusive range of its two values;
      the bounds are taken as written, even when the first exceeds the
      second. */
  lemma RangeRoundTrip(lo: nat, hi: nat, letter: char)
    requires BaseOf(letter).Some? && lo <= IntMax && hi <= IntMax
    ensures ConvertNumberVal("%" + [letter] + Digits(lo, letter) + "-" + Digits(hi, letter)) ==
      Ok(CharacterRange(lo, hi))
  {
    DigitsDecode(lo, letter);
    DigitsDecode(hi, letter);
    var value := "%" + [letter] + Digits(lo, letter) + "-" + Digits(hi, letter);
    var rest := Digits(lo, letter) + "-" + Digits(hi, letter);
    assert value[2..] == rest;
    assert rest[|Digits(lo, letter)|] == '-';
    assert Join([Digits(lo, letter), Digits(hi, letter)], '-') == rest;
    SplitJoin([Digits(lo, letter), Digits(hi, letter)], '-');
  }

  /** A concatenation: `%x41.42.43` decodes to one character value per
      printed value, in order. */
  lemma ConcatenationRoundTrip(codes: seq<nat>, letter: char)
    requires BaseOf(letter).Some? && |codes| >= 2
    requires forall i :: 0 <= i < |codes| ==> codes[i] <= IntMax
    ensures var parts := seq(|codes|, i requires 0 <= i < |codes| => Digits(codes[i], letter));
      ConvertNumberVal("%" + [letter] + Join(parts, '.')) ==
        Ok(Sequence(seq(|codes|, i requires 0 <= i < |codes| => CharacterValue(codes[i]))))
  {
    var parts := seq(|codes|, i requires 0 <= i < |codes| => Digits(codes[i], letter));
    forall i | 0 <= i < |codes|
      ensures ToInt32(parts[i], BaseOf(letter).value) == Ok(codes[i])
      ensures '-' !in parts[i] && '.' !in parts[i]
    {
      DigitsDecode(codes[i], letter);
    }
    var rest := Join(parts, '.');
    var value := "%" + [letter] + rest;
    assert value[2..] == rest;
    JoinNoDash(parts);
    assert rest == parts[0] + ['.'] + Join(parts[1..], '.');
    assert rest[|parts[0]|] == '.';
    SplitJoin(parts, '.');
    var expected := seq(|codes|, i requires 0 <= i < |codes| => CharacterValue(codes[i]));
    assert CharValues(parts, BaseOf(letter).value).value == expected;
  }

  lemma {:induction false} JoinNoDash(parts: seq<string>)
    requires forall i :: 0 <= i < |parts| ==> '-' !in parts[i]
    ensures '-' !in Join(parts, '.')
  {
    if |parts| > 1 {
      JoinNoDash(parts[1..]);
    }
  }

  /** The notation is refused unless it starts with `%` and a base letter,
      so a bare number is refused. */
  lemma MalformedPrefixRefused(value: string)
    requires |value| < 2 || value[0] != '%' || BaseOf(value[1]).None?
    ensures ConvertNumberVal(value) == Err(ArgumentError("Invalid number value format: " + value))
  {}

  lemma JoinThree(a: string, b: string, c: string, sep: char)
    ensures Join([a, b, c], sep) == a + [sep] + b + [sep] + c
  {
    assert [a, b, c][1..] == [b, c];
    assert [b, c][1..] == [c];
    assert Join([b, c], sep) == b + [sep] + c;
  }

  /** A range with more than one `-` is refused. */
  lemma RangeWithTwoDashesRefused(letter: char, a: string, b: string, c: string)
    requires BaseOf(letter).Some?
    requires '-' !in a && '-' !in b && '-' !in c
    ensures ConvertNumberVal("%" + [letter] + a + "-" + b + "-" + c) ==
      Err(ArgumentError("Invalid range format: " + "%" + [letter] + a + "-" + b + "-" + c))
  {
    var value := "%" + [letter] + a + "-" + b + "-" + c;
    var rest := a + "-" + b + "-" + c;
    assert value[0] == '%' && value[1] == letter;
    assert value[2..] == rest;
    JoinThree(a, b, c, '-');
    SplitJoin([a, b, c], '-');
    assert "Invalid range format: " + value ==
      "Invalid range format: " + "%" + [letter] + a + "-" + b + "-" + c;
  }

  /** A value with a character that is not a digit of its base is refused. */
  lemma BadDigitRefused(letter: char, digits: string)
    requires BaseOf(letter).Some?
    requires '-' !in digits && '.' !in digits
    requires exists i :: 0 <= i < |digits| && !IsDigitOf(digits[i], BaseOf(letter).value)
    ensures ConvertNumberVal("%" + [letter] + digits).Err?
  {
    var value := "%" + [letter] + digits;
    assert value[2..] == digits;
  }

  // ---------------------------------------------------------------------
  // What decoded values match
  // ---------------------------------------------------------------------

  /** A sequence of character values matches exactly those characters, in
      order, and nothing else. */
  lemma {:induction false} CharValuesMatch(codes: seq<int>, input: string, pos: nat, ctx: Context)
    requires pos <= |input|
    ensures var r := Attempt(Sequence(seq(|codes|, i requires 0 <= i < |codes| => CharacterValue(codes[i]))), input, pos, ctx);
      && (r.isSuccess <==>
            pos + |codes| <= |input| && forall i :: 0 <= i < |codes| ==> input[pos + i] as int == codes[i])
      && (r.isSuccess ==> r.position == pos + |codes|)
    decreases |codes|
  {
    var ps := seq(|codes|, i requires 0 <= i < |codes| => CharacterValue(codes[i]));
    if |codes| == 0 {
      UnfoldSequence(ps, input, pos, ctx);
    } else {
      var tail := codes[1..];
      var tailPs := seq(|tail|, i requires 0 <= i < |tail| => CharacterValue(tail[i]));
      assert ps == [CharacterValue(codes[0])] + tailPs;
      SequenceCons(CharacterValue(codes[0]), tailPs, input, pos, ctx);
      var first := Attempt(CharacterValue(codes[0]), input, pos, ctx);
      assert first == MatchCharValue(codes[0], input, pos);
      if first.isSuccess {
        CharValuesMatch(tail, input, pos + 1, ctx);
        if pos + |codes| <= |input| && forall i :: 0 <= i < |codes| ==> input[pos + i] as int == codes[i] {
          assert forall i :: 0 <= i < |tail| ==> input[pos + 1 + i] as int == tail[i] by {
            forall i | 0 <= i < |tail| ensures input[pos + 1 + i] as int == tail[i] {
              assert input[pos + (i + 1)] as int == codes[i + 1];
            }
          }
        }
        if Attempt(Sequence(tailPs), input, pos + 1, ctx).isSuccess {
          forall i | 0 <= i < |codes| ensures input[pos + i] as int == codes[i] {
            if i > 0 {
              assert input[pos + 1 + (i - 1)] as int == tail[i - 1];
            }
          }
        }
      }
    }
  }

  const ABC: seq<Pattern> := [CharacterValue(0x41), CharacterValue(0x42), CharacterValue(0x43)]

  /** `%x41.42.43` compiles to three character values ... */
  lemma HexConcatenationDecodes()
    ensures ConvertNumberVal("%x41.42.43") == Ok(Sequence(ABC))
  {
    var codes: seq<nat> := [0x41, 0x42, 0x43];
    ConcatenationRoundTrip(codes, 'x');
    HexLetterParts();
    HexLettersJoined();
    AbcValues();
  }

  lemma HexLetterParts()
    ensures var codes: seq<nat> := [0x41, 0x42, 0x43];
      seq(|codes|, i requires 0 <= i < |codes| => Digits(codes[i], 'x')) == ["41", "42", "43"]
  {
    HexLetters();
  }

  lemma AbcValues()
    ensures var codes: seq<nat> := [0x41, 0x42, 0x43];
      seq(|codes|, i requires 0 <= i < |codes| => CharacterValue(codes[i])) == ABC
  {}

  lemma HexLetters()
    ensures Digits(0x41, 'x') == "41" && Digits(0x42, 'x') == "42" && Digits(0x43, 'x') == "43"
  {
    HexByte(0x41);
    HexByte(0x42);
    HexByte(0x43);
    assert DigitChar(4) == '4' && DigitChar(1) == '1' && DigitChar(2) == '2' && DigitChar(3) == '3';
  }

  lemma HexLettersJoined()
    ensures "%" + ['x'] + Join(["41", "42", "43"], '.') == "%x41.42.43"
  {
    var parts := ["41", "42", "43"];
    assert parts[1..] == ["42", "43"] && parts[1..][1..] == ["43"];
    assert Join(["43"], '.') == "43";
    assert Join(["42", "43"], '.') == "42.43";
    assert Join(parts, '.') == "41.42.43";
  }

  /** ... which match "ABC", in that case, at the start of an input, and
      nothing else. */
  lemma HexConcatenationMatches(input: string, ctx: Context)
    ensures Attempt(Sequence(ABC), input, 0, ctx).isSuccess <==> |input| >= 3 && input[..3] == "ABC"
  {
    var codes: seq<int> := [0x41, 0x42, 0x43];
    assert seq(|codes|, i requires 0 <= i < |codes| => CharacterValue(codes[i])) == ABC;
    CharValuesMatch(codes, input, 0, ctx);
    if |input| >= 3 {
      assert 'A' as int == 0x41 && 'B' as int == 0x42 && 'C' as int == 0x43;
      if forall i :: 0 <= i < |codes| ==> input[0 + i] as int == codes[i] {
        assert input[0] as int == codes[0] && input[1] as int == codes[1] && input[2] as int == codes[2];
      }
      assert input[..3] == "ABC" <==> (input[0] == 'A' && input[1] == 'B' && input[2] == 'C');
    }
  }

  /** `%x41-5A` compiles to the range of the upper-case letters ... */
  lemma HexRangeDecodes()
    ensures ConvertNumberVal("%x41-5A") == Ok(CharacterRange(0x41, 0x5A))
  {
    RangeRoundTrip(0x41, 0x5A, 'x');
    HexByte(0x41);
    HexByte(0x5A);
    assert DigitChar(4) == '4' && DigitChar(1) == '1' && DigitChar(5) == '5' && DigitChar(10) == 'A';
    assert "%" + ['x'] + Digits(0x41, 'x') + "-" + Digits(0x5A, 'x') == "%x41-5A";
  }

  /** ... which matches an upper-case letter and nothing else, so not 'a'. */
  lemma HexRangeMatches(input: string, ctx: Context)
    requires |input| >= 1
    ensures Attempt(CharacterRange(0x41, 0x5A), input, 0, ctx).isSuccess <==> 'A' <= input[0] <= 'Z'
  {
    assert Attempt(CharacterRange(0x41, 0x5A), input, 0, ctx) == MatchCharRange(0x41, 0x5A, input, 0);
  }

  /** Two hexadecimal digits print as two digits. */
  lemma HexByte(v: nat)
    requires 16 <= v < 256
    ensures Digits(v, 'x') == [DigitChar(v / 16), DigitChar(v % 16)]
  {
    DivMod(v, 16);
    assert v / 16 < 16;
    assert ToDigits(v / 16, 16) == [DigitChar(v / 16)];
    assert ToDigits(v, 16) == ToDigits(v / 16, 16) + [DigitChar(v % 16)];
  }

  /** `%d65` is the character value 65. */
  lemma DecimalExample()
    ensures ConvertNumberVal("%d65") == Ok(CharacterValue(65))
  {
    SingleValueRoundTrip(65, 'd');
    DivMod(65, 10);
    assert Digits(65, 'd') == ToDigits(6, 10) + [DigitChar(5)];
    assert ToDigits(6, 10) == [DigitChar(6)];
    assert DigitChar(6) == '6' && DigitChar(5) == '5';
    assert "%" + ['d'] + Digits(65, 'd') == "%d65";
  }

  /** A negative 32-bit value, written in hexadecimal as its two's
      complement, reads back as that negative value. */
  lemma NegativeValueRoundTrip(x: int)
    requires -0x8000_0000 <= x < 0
    ensures ConvertNumberVal("%x" + HexOfInt(x)) == Ok(CharacterValue(x))
  {
    HexInt32RoundTrip(x);
    var digits := HexOfInt(x);
    assert ParseDigits(digits, 16).Some?;
    DigitsHaveNoSeparators(digits, 16);
    var value := "%x" + digits;
    assert value[2..] == digits;
  }
}
