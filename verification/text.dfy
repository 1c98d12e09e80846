/** Character classes, case folding, splitting and number formatting shared
    by the scanner, the converter, the matcher and the serialiser.

    Case-insensitive comparison folds ASCII letters only; it stands for
    .NET's `OrdinalIgnoreCase` on the characters a grammar normally holds. */
module Text {
  import opened Wrappers

  /** The largest 32-bit signed integer, `int.MaxValue`. */
  const IntMax: int := 0x7FFF_FFFF

  // ---------------------------------------------------------------------
  // Case folding
  // ---------------------------------------------------------------------

  function Upper(c: char): char {
    if 'a' <= c <= 'z' then (c as int - 32) as char else c
  }

  function Fold(s: string): string {
    seq(|s|, i requires 0 <= i < |s| => Upper(s[i]))
  }

  /** Ordinal comparison ignoring (ASCII) case. */
  predicate EqualsIgnoreCase(a: string, b: string) {
    Fold(a) == Fold(b)
  }

  /** Ignore-case equality is character-wise: two strings are equal ignoring
      case exactly when they have the same length and agree on every
      position after folding. */
  lemma EqualsIgnoreCasePointwise(a: string, b: string)
    ensures EqualsIgnoreCase(a, b) <==>
      |a| == |b| && forall i :: 0 <= i < |a| ==> Upper(a[i]) == Upper(b[i])
  {
    if |a| == |b| && forall i :: 0 <= i < |a| ==> Upper(a[i]) == Upper(b[i]) {
      assert Fold(a) == Fold(b);
    }
    if EqualsIgnoreCase(a, b) {
      assert |Fold(a)| == |a| && |Fold(b)| == |b|;
      forall i | 0 <= i < |a|
        ensures Upper(a[i]) == Upper(b[i])
      {
        assert Fold(a)[i] == Fold(b)[i];
      }
    }
  }

  // ---------------------------------------------------------------------
  // Character classes (the regular-expression classes of the scanner)
  // ---------------------------------------------------------------------

  predicate IsDigit(c: char) { '0' <= c <= '9' }

  predicate IsHexDigit(c: char) {
    IsDigit(c) || 'a' <= c <= 'f' || 'A' <= c <= 'F'
  }

  predicate IsLetter(c: char) { 'a' <= c <= 'z' || 'A' <= c <= 'Z' }

  /** The numeric-value base letters `b`, `d` and `x` in either case. */
  predicate IsBaseLetter(c: char) {
    c == 'b' || c == 'B' || c == 'd' || c == 'D' || c == 'x' || c == 'X'
  }

  // ---------------------------------------------------------------------
  // Splitting on a separator character (`string.Split(char)`)
  // ---------------------------------------------------------------------

  /** The pieces of `s` between occurrences of `sep`, empty pieces kept. */
  function Split(s: string, sep: char): (parts: seq<string>)
    ensures |parts| >= 1
    ensures forall i :: 0 <= i < |parts| ==> sep !in parts[i]
  {
    if |s| == 0 then [""]
    else
      var rest := Split(s[1..], sep);
      if s[0] == sep then [""] + rest
      else [[s[0]] + rest[0]] + rest[1..]
  }

  /** The pieces put back together with `sep` between neighbours. */
  function Join(parts: seq<string>, sep: char): string {
    if |parts| == 0 then ""
    else if |parts| == 1 then parts[0]
    else parts[0] + [sep] + Join(parts[1..], sep)
  }

  lemma {:induction false} JoinSplit(s: string, sep: char)
    ensures Join(Split(s, sep), sep) == s
  {
    if |s| > 0 {
      var rest := Split(s[1..], sep);
      JoinSplit(s[1..], sep);
      if s[0] == sep {
        assert Split(s, sep) == [""] + rest;
        assert s == [sep] + s[1..];
      } else {
        var parts := [[s[0]] + rest[0]] + rest[1..];
        assert Split(s, sep) == parts;
        if |rest| == 1 {
          assert Join(parts, sep) == [s[0]] + rest[0];
          assert s == [s[0]] + s[1..];
        } else {
          assert parts[1..] == rest[1..];
          assert Join(rest, sep) == rest[0] + [sep] + Join(rest[1..], sep);
          assert Join(parts, sep) == [s[0]] + (rest[0] + [sep] + Join(rest[1..], sep));
          assert s == [s[0]] + s[1..];
        }
      }
    }
  }

  lemma {:induction false} SplitJoin(parts: seq<string>, sep: char)
    requires |parts| >= 1
    requires forall i :: 0 <= i < |parts| ==> sep !in parts[i]
    ensures Split(Join(parts, sep), sep) == parts
    decreases |parts|, |parts[0]|
  {
    var p := parts[0];
    if |p| == 0 {
      if |parts| > 1 {
        var tail := Join(parts[1..], sep);
        assert Join(parts, sep) == [sep] + tail;
        SplitJoin(parts[1..], sep);
        assert ([sep] + tail)[1..] == tail;
        assert parts == [""] + parts[1..];
      }
    } else {
      var shorter := [p[1..]] + parts[1..];
      forall i | 0 <= i < |shorter| ensures sep !in shorter[i] {
        if i == 0 { assert forall c :: c in p[1..] ==> c in p; } else { assert shorter[i] == parts[i]; }
      }
      SplitJoin(shorter, sep);
      var j := Join(parts, sep);
      var js := Join(shorter, sep);
      if |parts| == 1 {
        assert j == p && js == p[1..];
      } else {
        assert shorter[1..] == parts[1..];
        assert j == p + [sep] + Join(parts[1..], sep);
        assert js == p[1..] + [sep] + Join(parts[1..], sep);
      }
      assert j == [p[0]] + js;
      assert j[1..] == js;
      assert p[0] != sep by { assert p[0] in p; }
      var rest := Split(js, sep);
      assert rest == shorter;
      assert Split(j, sep) == [[p[0]] + rest[0]] + rest[1..];
      assert [p[0]] + p[1..] == p;
    }
  }

  // ---------------------------------------------------------------------
  // Digit strings in base 2, 10 and 16
  // ---------------------------------------------------------------------

  /** The value of one digit character, or -1 for a non-digit. */
  function DigitValue(c: char): int {
    if '0' <= c <= '9' then c as int - '0' as int
    else if 'a' <= c <= 'f' then c as int - 'a' as int + 10
    else if 'A' <= c <= 'F' then c as int - 'A' as int + 10
    else -1
  }

  predicate IsDigitOf(c: char, base: nat) {
    0 <= DigitValue(c) < base
  }

  /** The big-endian value of a string of digits of `base`. */
  function DigitsValue(s: string, base: nat): nat
    requires forall i :: 0 <= i < |s| ==> IsDigitOf(s[i], base)
  {
    if |s| == 0 then 0
    else
      assert IsDigitOf(s[|s| - 1], base);
      MulNonNegative(DigitsValue(s[..|s| - 1], base), base);
      DigitsValue(s[..|s| - 1], base) * base + DigitValue(s[|s| - 1])
  }

  lemma MulNonNegative(a: nat, b: nat)
    ensures a * b >= 0
  {}

  /** Euclidean division facts for a base of at least two. */
  lemma DivMod(n: nat, base: nat)
    requires 2 <= base
    ensures n % base < base
    ensures n == (n / base) * base + n % base
    ensures n >= base ==> 0 < n / base < n
  {
    if n >= base {
      assert n / base >= 1;
      assert (n / base) * base <= n;
      assert (n / base) * 2 <= (n / base) * base;
    }
  }

  /** Reads a non-empty string of digits of `base`; `None` when it is empty
      or holds any other character. */
  function ParseDigits(s: string, base: nat): (r: Option<nat>)
    ensures r.Some? <==> |s| > 0 && forall i :: 0 <= i < |s| ==> IsDigitOf(s[i], base)
  {
    if |s| > 0 && forall i :: 0 <= i < |s| ==> IsDigitOf(s[i], base) then Some(DigitsValue(s, base))
    else None
  }

  /** The upper-case digit character of a digit value below sixteen. */
  function DigitChar(k: nat): (c: char)
    requires k < 16
    ensures DigitValue(c) == k
  {
    if k < 10 then ('0' as int + k) as char else ('A' as int + k - 10) as char
  }

  /** The shortest upper-case digit string of `n` in `base`. */
  function ToDigits(n: nat, base: nat): (s: string)
    requires 2 <= base <= 16
    ensures |s| > 0
    ensures forall i :: 0 <= i < |s| ==> IsDigitOf(s[i], base)
  {
    if n < base then [DigitChar(n)]
    else
      DivMod(n, base);
      ToDigits(n / base, base) + [DigitChar(n % base)]
  }

  /** Printing a number and reading it back gives the number. */
  lemma {:induction false} DigitsRoundTrip(n: nat, base: nat)
    requires 2 <= base <= 16
    ensures ParseDigits(ToDigits(n, base), base) == Some(n)
    decreases n
  {
    var s := ToDigits(n, base);
    if n >= base {
      DivMod(n, base);
      DigitsRoundTrip(n / base, base);
      assert s == ToDigits(n / base, base) + [DigitChar(n % base)];
      assert s[..|s| - 1] == ToDigits(n / base, base);
      assert DigitValue(s[|s| - 1]) == n % base;
      var prefix := ToDigits(n / base, base);
      assert DigitsValue(prefix, base) == n / base;
      assert DigitsValue(s, base) == DigitsValue(prefix, base) * base + DigitValue(s[|s| - 1]);
      assert DigitsValue(s, base) == n;
    } else {
      assert s == [DigitChar(n)];
      assert s[..0] == [];
      assert DigitsValue(s, base) == 0 * base + n;
    }
  }

  /** `int.ToString()`: decimal, with a leading minus sign when negative. */
  function IntToString(i: int): string {
    if i < 0 then "-" + ToDigits(-i, 10) else ToDigits(i, 10)
  }

  /** The `X` format of a non-negative value: upper-case hexadecimal. */
  function Hex(n: nat): string {
    ToDigits(n, 16)
  }

  /** The `X` format of a 32-bit `int`: a negative value prints as its
      two's-complement bit pattern. */
  function HexOfInt(v: int): string {
    if v < 0 then Hex(v % 0x1_0000_0000) else Hex(v)
  }

  /** The `X2` format: hexadecimal padded to at least two digits. */
  function Hex2(v: int): (s: string)
    ensures |s| >= 2
  {
    var h := HexOfInt(v);
    if |h| < 2 then "0" + h else h
  }

  /** `(char)v`: the UTF-16 code unit of the low sixteen bits of `v`. A
      lone surrogate unit has no Dafny `char`; it reads as U+FFFD. */
  function CharOfCode(v: int): char {
    var unit := v % 0x1_0000;
    if 0xD800 <= unit < 0xE000 then '\U{FFFD}' else unit as char
  }

  // ---------------------------------------------------------------------
  // Counting
  // ---------------------------------------------------------------------

  /** The number of occurrences of `c` in `s`. */
  function Count(s: string, c: char): nat {
    if |s| == 0 then 0
    else Count(s[..|s| - 1], c) + (if s[|s| - 1] == c then 1 else 0)
  }
}
