/** The .NET integer parsers the front end calls, on the digit strings the
    scanner produces: `Convert.ToInt32(s, base)`, `int.Parse(s)` and
    `int.Parse(s, NumberStyles.HexNumber)`. */
module Numbers {
  import opened Wrappers
  import opened Text
  import opened Errors

  /** `Convert.ToInt32(s, base)` and `int.Parse(s)` on digit strings. In
      base 10 the value must fit a 32-bit `int`. In base 2 and base 16 the
      digits are read as an unsigned 32-bit value and reinterpreted as a
      two's-complement `int`, so `FFFFFFFF` reads as -1; only more than 32
      bits overflow. A string with no digits, or a non-digit, is an error. */
  function ToInt32(s: string, base: nat): (r: Result<int, Error>)
    ensures r.Ok? <==> ParseDigits(s, base).Some? && ParseDigits(s, base).value <= Int32Limit(base)
    ensures r.Ok? ==> -0x8000_0000 <= r.value <= IntMax
    ensures r.Ok? ==> r.value % 0x1_0000_0000 == ParseDigits(s, base).value
    ensures r.Ok? && ParseDigits(s, base).value <= IntMax ==> r.value == ParseDigits(s, base).value
  {
    match ParseDigits(s, base)
    case None => Err(FormatError("Could not find any recognizable digits."))
    case Some(v) =>
      if base == 10 && v > IntMax then Err(OverflowError("Value was either too large or too small for an Int32."))
      else if v > UIntMax then Err(OverflowError("Value was either too large or too small for a UInt32."))
      else if v > IntMax then Ok(v - 0x1_0000_0000)
      else Ok(v)
  }

  /** The largest digit value `ToInt32` accepts in `base`. */
  function Int32Limit(base: nat): int {
    if base == 10 then IntMax else UIntMax
  }

  /** Any 32-bit `int` printed in the `X` format reads back through
      `Convert.ToInt32(s, 16)`, negative values included. */
  lemma HexInt32RoundTrip(x: int)
    requires -0x8000_0000 <= x <= IntMax
    ensures ToInt32(HexOfInt(x), 16) == Ok(x)
  {
    var v := if x < 0 then x % 0x1_0000_0000 else x;
    assert HexOfInt(x) == ToDigits(v, 16);
    DigitsRoundTrip(v, 16);
    if x < 0 {
      assert v == x + 0x1_0000_0000;
    }
  }

  const UIntMax: int := 0xFFFF_FFFF

  /** `int.Parse(s, NumberStyles.HexNumber)`: up to 32 bits of hexadecimal,
      read as a two's-complement `int`, so eight digits with the top bit set
      give a negative value. */
  function ParseHexInt32(s: string): (r: Result<int, Error>)
    ensures r.Ok? <==> ParseDigits(s, 16).Some? && ParseDigits(s, 16).value <= UIntMax
    ensures r.Ok? ==> -0x8000_0000 <= r.value <= IntMax
    ensures r.Ok? ==> r.value % 0x1_0000_0000 == ParseDigits(s, 16).value
  {
    match ParseDigits(s, 16)
    case None => Err(FormatError("The input string was not in a correct format."))
    case Some(v) =>
      if v > UIntMax then Err(OverflowError("Value was either too large or too small for an Int32."))
      else if v > IntMax then Ok(v - 0x1_0000_0000)
      else Ok(v)
  }
}
