/** The outcome of validating an input against a grammar: success, or a
    0-based error offset with a message, and its conversion to a 1-based
    line and column for display. */
module Validation {
  import opened Text

  datatype ValidationResult = ValidationResult(isSuccess: bool, errorPosition: int, errorMessage: string)

  /** `ValidationResult.Success()`. */
  function Success(): (r: ValidationResult)
    ensures r.isSuccess && r.errorPosition == 0 && r.errorMessage == ""
  {
    ValidationResult(true, 0, "")
  }

  /** `ValidationResult.Failure(position, message)`. */
  function Failure(position: int, message: string): (r: ValidationResult)
    ensures !r.isSuccess && r.errorPosition == position && r.errorMessage == message
  {
    ValidationResult(false, position, message)
  }

  // ---------------------------------------------------------------------
  // Line and column: a reference definition
  // ---------------------------------------------------------------------

  /** The characters before the error: the error offset clamped to the input. */
  function Examined(r: ValidationResult, input: string): (s: string)
    ensures s <= input
  {
    if r.errorPosition <= 0 then []
    else if r.errorPosition >= |input| then input
    else input[..r.errorPosition]
  }

  /** The part of `s` after its last line feed (all of `s` when it has none). */
  function LastLine(s: string): (t: string)
    ensures '\n' !in t
    ensures |t| <= |s| && s[|s| - |t|..] == t
    ensures |t| < |s| ==> s[|s| - |t| - 1] == '\n'
  {
    if |s| == 0 then []
    else if s[|s| - 1] == '\n' then []
    else LastLine(s[..|s| - 1]) + [s[|s| - 1]]
  }

  /** The line and column just after `s`, as a reader counts: one line more
      than the line feeds in `s`, and one column more than the characters
      since its last line feed that are not carriage returns. */
  function Reached(s: string): (lc: (int, int))
    ensures lc.0 >= 1 && lc.1 >= 1
  {
    var last := LastLine(s);
    CountBounded(last, '\r');
    (1 + Count(s, '\n'), 1 + |last| - Count(last, '\r'))
  }

  /** Where the error lies: the position reached by the characters before
      it. A success, or an empty input, is at the very start. */
  function LineColumn(r: ValidationResult, input: string): (lc: (int, int))
    ensures lc.0 >= 1 && lc.1 >= 1
    ensures (r.isSuccess || |input| == 0) ==> lc == (1, 1)
  {
    if r.isSuccess || |input| == 0 then (1, 1) else Reached(Examined(r, input))
  }

  lemma {:induction false} CountBounded(s: string, c: char)
    ensures Count(s, c) <= |s|
  {
    if |s| > 0 {
      CountBounded(s[..|s| - 1], c);
    }
  }

  lemma CountStep(s: string, x: char, c: char)
    ensures Count(s + [x], c) == Count(s, c) + (if x == c then 1 else 0)
  {
    assert (s + [x])[..|s|] == s;
  }

  /** One more character: a line feed starts a new line, a carriage return
      changes nothing, and anything else moves one column on. */
  lemma ReachedStep(s: string, x: char)
    ensures Reached(s + [x]) ==
      if x == '\n' then (Reached(s).0 + 1, 1)
      else if x == '\r' then Reached(s)
      else (Reached(s).0, Reached(s).1 + 1)
  {
    var t := s + [x];
    assert t[..|s|] == s;
    CountStep(s, x, '\n');
    if x == '\n' {
      assert LastLine(t) == [];
    } else {
      assert LastLine(t) == LastLine(s) + [x];
      CountStep(LastLine(s), x, '\r');
    }
  }

  /** `ReachedStep` on a prefix of the input. */
  lemma ReachedPrefix(input: string, position: nat)
    requires position < |input|
    ensures Reached(input[..position + 1]) ==
      if input[position] == '\n' then (Reached(input[..position]).0 + 1, 1)
      else if input[position] == '\r' then Reached(input[..position])
      else (Reached(input[..position]).0, Reached(input[..position]).1 + 1)
  {
    assert input[..position + 1] == input[..position] + [input[position]];
    ReachedStep(input[..position], input[position]);
  }

  /** Where the scanning loop stops is the end of the examined characters. */
  lemma LoopEnd(r: ValidationResult, input: string, position: nat)
    requires position <= |input| && (position <= r.errorPosition || position == 0)
    requires !(position < r.errorPosition && position < |input|)
    ensures input[..position] == Examined(r, input)
  {}

  // ---------------------------------------------------------------------
  // Line and column: the scanning loop
  // ---------------------------------------------------------------------

  /** `GetLineColumn`: walks the input up to the error offset, starting a
      new line at each line feed and skipping carriage returns in the
      column count. */
  method GetLineColumn(r: ValidationResult, input: string) returns (line: int, column: int)
    ensures (line, column) == LineColumn(r, input)
  {
    if r.isSuccess || |input| == 0 {
      return 1, 1;
    }
    line := 1;
    column := 1;
    var position := 0;
    while position < r.errorPosition && position < |input|
      invariant 0 <= position <= |input|
      invariant position <= r.errorPosition || position == 0
      invariant (line, column) == Reached(input[..position])
    {
      var c := input[position];
      ReachedPrefix(input, position);
      if c == '\n' {
        line := line + 1;
        column := 1;
      } else if c != '\r' {
        column := column + 1;
      }
      position := position + 1;
    }
    LoopEnd(r, input, position);
  }

  /** `FormatError`: empty for a success, otherwise the line and column
      followed by the message. */
  function FormatError(r: ValidationResult, input: string): (s: string)
    ensures r.isSuccess <==> s == ""
    ensures !r.isSuccess ==>
      var (line, column) := LineColumn(r, input);
      s == "Line " + IntToString(line) + ", Column " + IntToString(column) + ": " + r.errorMessage
  {
    if r.isSuccess then ""
    else
      var (line, column) := LineColumn(r, input);
      "Line " + IntToString(line) + ", Column " + IntToString(column) + ": " + r.errorMessage
  }

  /** `FormatErrorWithPosition`: empty for a success, otherwise the 1-based
      position followed by the message. */
  function FormatErrorWithPosition(r: ValidationResult): (s: string)
    ensures r.isSuccess <==> s == ""
    ensures !r.isSuccess ==> s == "Position " + IntToString(r.errorPosition + 1) + ": " + r.errorMessage
  {
    if r.isSuccess then ""
    else "Position " + IntToString(r.errorPosition + 1) + ": " + r.errorMessage
  }
}
