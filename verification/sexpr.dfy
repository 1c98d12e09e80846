/** The S-expression rendering of compiled grammars, for inspection and
    debugging: one parenthesised form per pattern node, one line per rule. */
module SExpressions {
  import opened Wrappers
  import opened Text
  import opened Numbers
  import opened Patterns

  /** The line terminator written after the header and after each rule. */
  const NewLine: string := "\n"

  // ---------------------------------------------------------------------
  // Escaping terminal text
  // ---------------------------------------------------------------------

  /** `s.Replace(c, t)` for a one-character search string: every `c`, from
      left to right, becomes `t`. */
  function ReplaceChar(s: string, c: char, t: string): (r: string)
    ensures c !in s ==> r == s
    decreases |s|
  {
    if |s| == 0 then ""
    else (if s[0] == c then t else [s[0]]) + ReplaceChar(s[1..], c, t)
  }

  /** The five replacements of the terminal text, in order: backslashes
      first, so that the backslashes the later steps insert stay single. */
  function Escape(s: string): string {
    ReplaceChar(ReplaceChar(ReplaceChar(ReplaceChar(ReplaceChar(
      s, '\\', "\\\\"), '"', "\\\""), '\n', "\\n"), '\r', "\\r"), '\t', "\\t")
  }

  /** The escape of one character, taken on its own. */
  function EscapeChar(c: char): (r: string)
    ensures |r| == 1 ==> r == [c] && c != '\\'
    ensures |r| == 2 ==> r[0] == '\\'
    ensures '\n' !in r && '\r' !in r && '\t' !in r
  {
    match c
    case '\\' => "\\\\"
    case '"' => "\\\""
    case '\n' => "\\n"
    case '\r' => "\\r"
    case '\t' => "\\t"
    case _ => [c]
  }

  /** Escaping character by character. */
  function EscapeEach(s: string): (r: string)
    ensures '\n' !in r && '\r' !in r && '\t' !in r
    decreases |s|
  {
    if |s| == 0 then "" else EscapeChar(s[0]) + EscapeEach(s[1..])
  }

  /** The character a backslash pair stands for. */
  function Unescaped(c: char): char {
    match c
    case 'n' => '\n'
    case 'r' => '\r'
    case 't' => '\t'
    case _ => c
  }

  predicate IsEscapeLetter(c: char) {
    c == '\\' || c == '"' || c == 'n' || c == 'r' || c == 't'
  }

  /** Reads escaped text back: a backslash and an escape letter give one
      character; anything else stands for itself. */
  function Unescape(s: string): (r: string)
    decreases |s|
  {
    if |s| == 0 then ""
    else if s[0] == '\\' && |s| >= 2 && IsEscapeLetter(s[1]) then [Unescaped(s[1])] + Unescape(s[2..])
    else [s[0]] + Unescape(s[1..])
  }

  /** A replacement applies to the two halves of a string separately. */
  lemma {:induction false} ReplaceAppend(a: string, b: string, c: char, t: string)
    ensures ReplaceChar(a + b, c, t) == ReplaceChar(a, c, t) + ReplaceChar(b, c, t)
    decreases |a|
  {
    if |a| > 0 {
      assert (a + b)[0] == a[0] && (a + b)[1..] == a[1..] + b;
      ReplaceAppend(a[1..], b, c, t);
    } else {
      assert a + b == b;
    }
  }

  /** The whole escape applies to the two halves of a string separately. */
  lemma EscapeAppend(a: string, b: string)
    ensures Escape(a + b) == Escape(a) + Escape(b)
  {
    var a1, b1 := ReplaceChar(a, '\\', "\\\\"), ReplaceChar(b, '\\', "\\\\");
    ReplaceAppend(a, b, '\\', "\\\\");
    var a2, b2 := ReplaceChar(a1, '"', "\\\""), ReplaceChar(b1, '"', "\\\"");
    ReplaceAppend(a1, b1, '"', "\\\"");
    var a3, b3 := ReplaceChar(a2, '\n', "\\n"), ReplaceChar(b2, '\n', "\\n");
    ReplaceAppend(a2, b2, '\n', "\\n");
    var a4, b4 := ReplaceChar(a3, '\r', "\\r"), ReplaceChar(b3, '\r', "\\r");
    ReplaceAppend(a3, b3, '\r', "\\r");
    ReplaceAppend(a4, b4, '\t', "\\t");
  }

  /** On a single character the chain of replacements is that character's
      escape: no later step touches what an earlier one wrote. */
  lemma EscapeOne(c: char)
    ensures Escape([c]) == EscapeChar(c)
  {
    assert ReplaceChar([c], c, "") == "" by {
      assert [c][1..] == "";
    }
    forall d: char, t: string | d != c
      ensures ReplaceChar([c], d, t) == [c]
    {
      assert d !in [c];
    }
    var s1 := ReplaceChar([c], '\\', "\\\\");
    assert s1 == if c == '\\' then "\\\\" else [c] by {
      assert [c][1..] == "";
    }
  }

  /** The chain of `Replace` calls escapes each character on its own. */
  lemma {:induction false} EscapeIsPerCharacter(s: string)
    ensures Escape(s) == EscapeEach(s)
    decreases |s|
  {
    if |s| == 0 {
      assert ReplaceChar("", '\\', "\\\\") == "";
    } else {
      assert s == [s[0]] + s[1..];
      EscapeAppend([s[0]], s[1..]);
      EscapeOne(s[0]);
      EscapeIsPerCharacter(s[1..]);
    }
  }

  /** Reading the per-character escape back gives the original text. */
  lemma {:induction false} UnescapeEach(s: string)
    ensures Unescape(EscapeEach(s)) == s
    decreases |s|
  {
    if |s| > 0 {
      var e, rest := EscapeChar(s[0]), EscapeEach(s[1..]);
      UnescapeEach(s[1..]);
      var w := e + rest;
      assert EscapeEach(s) == w;
      if |e| == 2 {
        assert w[0] == '\\' && w[1] == e[1] && w[2..] == rest;
        assert IsEscapeLetter(e[1]) && Unescaped(e[1]) == s[0];
      } else {
        assert w[0] == s[0] && w[1..] == rest;
      }
      assert s == [s[0]] + s[1..];
    }
  }

  /** Escaped terminal text reads back to the text, and holds no raw line
      break, carriage return or tab. */
  lemma EscapeRoundTrip(s: string)
    ensures Unescape(Escape(s)) == s
    ensures '\n' !in Escape(s) && '\r' !in Escape(s) && '\t' !in Escape(s)
  {
    EscapeIsPerCharacter(s);
    UnescapeEach(s);
  }

  /** Escaping backslashes last would double the backslash written for a
      quote: the text `"` would read back as `\"`. */
  lemma BackslashFirstMatters()
    ensures Unescape(ReplaceChar(ReplaceChar("\"", '"', "\\\""), '\\', "\\\\")) != "\""
    ensures Unescape(Escape("\"")) == "\""
  {
    var once := ReplaceChar("\"", '"', "\\\"");
    assert once == "\\\"" by {
      assert "\""[1..] == "";
    }
    var twice := ReplaceChar(once, '\\', "\\\\");
    assert twice == "\\\\\"" by {
      assert once[1..] == "\"";
      assert once[1..][1..] == "";
    }
    assert Unescape(twice) == "\\" + Unescape("\"") by {
      assert twice[2..] == "\"";
    }
    EscapeRoundTrip("\"");
  }

  // ---------------------------------------------------------------------
  // Character codes
  // ---------------------------------------------------------------------

  /** Printable ASCII other than `"` and `\`, which print as quoted
      characters; every other code prints in hexadecimal. */
  predicate IsQuotable(v: int) {
    32 <= v <= 126 && v != 0x22 && v != 0x5C
  }

  predicate IsUpperHexDigit(c: char) {
    '0' <= c <= '9' || 'A' <= c <= 'F'
  }

  /** A character code: `'c'` for a quotable code, `0x` and at least two
      upper-case hexadecimal digits otherwise. */
  function FormatChar(v: int): (r: string)
    ensures |r| >= 3
    ensures r[0] == '\'' <==> IsQuotable(v)
    ensures !IsQuotable(v) ==> |r| >= 4 && r[..2] == "0x" && forall i :: 2 <= i < |r| ==> IsUpperHexDigit(r[i])
  {
    if 32 <= v <= 126 then
      var c := v as char;
      if c == '"' then "0x22"
      else if c == '\\' then "0x5C"
      else ['\'', c, '\'']
    else
      HexDigitsUpper(v);
      "0x" + Hex2(v)
  }

  /** The `X` format writes only upper-case hexadecimal digits. */
  lemma HexDigitsUpper(v: int)
    ensures forall i :: 0 <= i < |Hex2(v)| ==> IsUpperHexDigit(Hex2(v)[i])
  {
    var n := if v < 0 then v % 0x1_0000_0000 else v;
    UpperDigits(n);
  }

  lemma {:induction false} UpperDigits(n: nat)
    ensures forall i :: 0 <= i < |ToDigits(n, 16)| ==> IsUpperHexDigit(ToDigits(n, 16)[i])
    decreases n
  {
    if n >= 16 {
      DivMod(n, 16);
      UpperDigits(n / 16);
    }
  }

  /** Reads a printed character code back: the code of a quoted character,
      or the hexadecimal after `0x` as `Convert.ToInt32(s, 16)` reads it. */
  function ReadChar(s: string): (r: Option<int>) {
    if |s| == 3 && s[0] == '\'' && s[2] == '\'' then Some(s[1] as int)
    else if |s| > 2 && s[..2] == "0x" then
      match ToInt32(s[2..], 16)
      case Ok(v) => Some(v)
      case Err(_) => None
    else None
  }

  /** A leading zero does not change a digit string's value. */
  lemma {:induction false} LeadingZero(s: string, base: nat)
    requires 2 <= base && |s| > 0
    ensures ParseDigits("0" + s, base) == ParseDigits(s, base)
    decreases |s|
  {
    var z := "0" + s;
    assert forall i :: 0 <= i < |s| ==> z[i + 1] == s[i];
    if forall i :: 0 <= i < |s| ==> IsDigitOf(s[i], base) {
      assert forall i :: 0 <= i < |z| ==> IsDigitOf(z[i], base) by {
        forall i | 0 <= i < |z| ensures IsDigitOf(z[i], base) {
          if i > 0 { assert z[i] == s[i - 1]; }
        }
      }
      ZeroValue(s, base);
    } else {
      var k :| 0 <= k < |s| && !IsDigitOf(s[k], base);
      assert z[k + 1] == s[k];
    }
  }

  lemma {:induction false} ZeroValue(s: string, base: nat)
    requires 2 <= base && forall i :: 0 <= i < |s| ==> IsDigitOf(s[i], base)
    requires forall i :: 0 <= i < |"0" + s| ==> IsDigitOf(("0" + s)[i], base)
    ensures DigitsValue("0" + s, base) == DigitsValue(s, base)
    decreases |s|
  {
    var z := "0" + s;
    if |s| == 0 {
      assert z[..0] == "";
    } else {
      var prefix := s[..|s| - 1];
      assert z[..|z| - 1] == "0" + prefix;
      assert z[|z| - 1] == s[|s| - 1];
      assert forall i :: 0 <= i < |prefix| ==> prefix[i] == s[i];
      assert forall i :: 0 <= i < |"0" + prefix| ==> ("0" + prefix)[i] == z[i];
      ZeroValue(prefix, base);
    }
  }

  /** Every 32-bit code prints in a form that reads back to it. */
  lemma CharRoundTrip(v: int)
    requires -0x8000_0000 <= v <= IntMax
    ensures ReadChar(FormatChar(v)) == Some(v)
  {
    if v == 0x22 || v == 0x5C {
      EscapedQuoteRoundTrip(v);
    } else if !(32 <= v <= 126) {
      HexCharRoundTrip(v);
    } else {
      QuotedCharRoundTrip(v);
    }
  }

  /** A quotable code reads back from between its quotes. */
  lemma QuotedCharRoundTrip(v: int)
    requires IsQuotable(v)
    ensures ReadChar(FormatChar(v)) == Some(v)
  {
    var s := FormatChar(v);
    assert s == ['\'', v as char, '\''];
  }

  /** `"` and `\` print in hexadecimal and read back from it. */
  lemma EscapedQuoteRoundTrip(v: int)
    requires v == 0x22 || v == 0x5C
    ensures ReadChar(FormatChar(v)) == Some(v)
  {
    assert HexOfInt(0x22) == "22" && HexOfInt(0x5C) == "5C";
    HexInt32RoundTrip(v);
    var s := FormatChar(v);
    assert s[..2] == "0x" && s[2..] == HexOfInt(v);
  }

  /** A code outside printable ASCII reads back from its hexadecimal. */
  lemma HexCharRoundTrip(v: int)
    requires -0x8000_0000 <= v <= IntMax && !(32 <= v <= 126)
    ensures ReadChar(FormatChar(v)) == Some(v)
  {
    var h := HexOfInt(v);
    assert |h| > 0 by {
      var n := if v < 0 then v % 0x1_0000_0000 else v;
      assert h == ToDigits(n, 16);
    }
    var s := FormatChar(v);
    assert s == "0x" + Hex2(v);
    assert s[..2] == "0x" && s[2..] == Hex2(v);
    HexInt32RoundTrip(v);
    if |h| < 2 {
      LeadingZero(h, 16);
      assert Hex2(v) == "0" + h;
    }
  }

  // ---------------------------------------------------------------------
  // Patterns, rules and grammars
  // ---------------------------------------------------------------------

  /** A bound as written: a missing minimum is `0`, a missing maximum `∞`. */
  function MinText(min: Option<int>): string {
    match min
    case None => "0"
    case Some(m) => IntToString(m)
  }

  function MaxText(max: Option<int>): string {
    match max
    case None => "\U{221E}"
    case Some(m) => IntToString(m)
  }

  /** A pattern's form. Every form is one parenthesised list. */
  function ToSExpr(p: Pattern): (r: string)
    ensures |r| >= 2 && r[0] == '(' && r[|r| - 1] == ')'
    decreases Size(p), 0, 0
  {
    match p
    case Terminal(v, cs) =>
      (if cs then "(terminal-cs \"" else "(terminal \"") + Escape(v) + "\")"
    case CharacterValue(c) => "(char " + FormatChar(c) + ")"
    case CharacterRange(lo, hi) => "(char-range " + FormatChar(lo) + " " + FormatChar(hi) + ")"
    case RuleReference(name) => "(ref " + name + ")"
    case Sequence(es) => FormatList("seq", es)
    case Alternation(alts) => FormatList("alt", alts)
    case Repetition(e, min, max) =>
      "(repeat " + MinText(min) + " " + MaxText(max) + " " + ToSExpr(e) + ")"
  }

  /** A list of patterns under a name: `(name)` when empty, the one pattern
      unwrapped when single, `(name e1 e2 …)` otherwise. */
  function FormatList(name: string, es: seq<Pattern>): (r: string)
    ensures |r| >= 2 && r[0] == '(' && r[|r| - 1] == ')'
    decreases SizeAll(es), 2, 0
  {
    if |es| == 0 then "(" + name + ")"
    else if |es| == 1 then ToSExpr(es[0])
    else "(" + name + Items(es) + ")"
  }

  /** Each pattern's form after a space. */
  function Items(es: seq<Pattern>): (r: string)
    decreases SizeAll(es), 1, |es|
  {
    if |es| == 0 then "" else " " + ToSExpr(es[0]) + Items(es[1..])
  }

  /** A rule's form: `(rule name pattern)`. */
  function RuleToSExpr(rule: GrammarRule): string {
    "(rule " + rule.name + " " + ToSExpr(rule.pattern) + ")"
  }

  /** Each rule's form on its own line, indented by two spaces. */
  function RuleLines(rules: seq<GrammarRule>): string
    decreases |rules|
  {
    if |rules| == 0 then "" else "  " + RuleToSExpr(rules[0]) + NewLine + RuleLines(rules[1..])
  }

  /** A grammar's form, its rules in the grammar's enumeration order. */
  function GrammarToSExpr(rules: seq<GrammarRule>): string {
    "(grammar" + NewLine + RuleLines(rules) + ")"
  }

  // ---------------------------------------------------------------------
  // Laws of the forms
  // ---------------------------------------------------------------------

  /** The forms of the patterns in a list. */
  function Forms(es: seq<Pattern>): (r: seq<string>)
    ensures |r| == |es| && forall i :: 0 <= i < |es| ==> r[i] == ToSExpr(es[i])
  {
    seq(|es|, i requires 0 <= i < |es| => ToSExpr(es[i]))
  }

  /** The items of a non-empty list are its forms joined by spaces. */
  lemma {:induction false} ItemsJoined(es: seq<Pattern>)
    requires |es| > 0
    ensures Items(es) == " " + Join(Forms(es), ' ')
    decreases |es|
  {
    var tail, head := es[1..], ToSExpr(es[0]);
    assert Items(es) == " " + head + Items(tail);
    if |tail| == 0 {
      assert Forms(es) == [head];
      assert Items(tail) == "";
    } else {
      ItemsJoined(tail);
      FormsJoinStep(es);
      Regroup(" ", head, " ", Join(Forms(tail), ' '));
    }
  }

  /** The forms of a longer list joined: the first, a space, the rest. */
  lemma FormsJoinStep(es: seq<Pattern>)
    requires |es| > 1
    ensures Join(Forms(es), ' ') == ToSExpr(es[0]) + " " + Join(Forms(es[1..]), ' ')
  {
    var fs := Forms(es);
    assert fs[1..] == Forms(es[1..]);
    assert [' '] == " ";
  }

  /** Concatenation regrouped. */
  lemma Regroup(a: string, b: string, c: string, d: string)
    ensures a + b + (c + d) == a + (b + c + d)
  {
  }

  /** Empty lists print as a bare name, a single pattern is unwrapped, and
      longer lists print as the name and the forms separated by spaces. */
  lemma ListShapes(name: string, es: seq<Pattern>)
    ensures |es| == 0 ==> FormatList(name, es) == "(" + name + ")"
    ensures |es| == 1 ==> FormatList(name, es) == ToSExpr(es[0])
    ensures |es| >= 2 ==> FormatList(name, es) == "(" + name + " " + Join(Forms(es), ' ') + ")"
  {
    if |es| >= 2 {
      ItemsJoined(es);
    }
  }

  /** A one-element sequence or alternation prints as its element, so the
      two print alike: the form does not determine the pattern. */
  lemma SingletonUnwrapped(x: Pattern)
    ensures ToSExpr(Sequence([x])) == ToSExpr(x)
    ensures ToSExpr(Alternation([x])) == ToSExpr(x)
    ensures Sequence([x]) != Alternation([x])
  {
  }

  /** A missing minimum prints like an explicit zero; a missing maximum
      prints as `∞`. */
  lemma MissingBounds(e: Pattern, max: Option<int>)
    ensures ToSExpr(Repetition(e, None, max)) == ToSExpr(Repetition(e, Some(0), max))
    ensures ToSExpr(Repetition(e, None, None)) == "(repeat 0 \U{221E} " + ToSExpr(e) + ")"
  {
    MissingMinimum(e, max);
    NoBounds(e);
  }

  lemma MissingMinimum(e: Pattern, max: Option<int>)
    ensures ToSExpr(Repetition(e, None, max)) == ToSExpr(Repetition(e, Some(0), max))
  {
    ZeroText();
  }

  lemma NoBounds(e: Pattern)
    ensures ToSExpr(Repetition(e, None, None)) == "(repeat 0 \U{221E} " + ToSExpr(e) + ")"
  {
    var body := ToSExpr(e);
    ZeroText();
    assert ToSExpr(Repetition(e, None, None)) == "(repeat " + "0" + " " + "\U{221E}" + " " + body + ")";
    assert "(repeat " + "0" + " " + "\U{221E}" + " " == "(repeat 0 \U{221E} ";
  }

  /** A missing minimum and an explicit zero both print as `0`. */
  lemma ZeroText()
    ensures MinText(None) == "0" && MinText(Some(0)) == "0"
  {
    assert ToDigits(0, 10) == [DigitChar(0)];
  }

  // ---------------------------------------------------------------------
  // Line structure of a grammar's form
  // ---------------------------------------------------------------------

  /** No rule name and no referenced name holds a line break. */
  predicate SingleLine(p: Pattern)
    decreases Size(p), 0
  {
    match p
    case RuleReference(name) => '\n' !in name
    case Sequence(es) => AllSingleLine(es)
    case Alternation(alts) => AllSingleLine(alts)
    case Repetition(e, _, _) => SingleLine(e)
    case _ => true
  }

  predicate AllSingleLine(es: seq<Pattern>)
    decreases SizeAll(es), 1
  {
    forall i :: 0 <= i < |es| ==> (SizeBound(es, i); SingleLine(es[i]))
  }

  lemma {:induction false} SizeBound(es: seq<Pattern>, i: nat)
    requires i < |es|
    ensures Size(es[i]) <= SizeAll(es)
    decreases |es|
  {
    if i > 0 {
      SizeBound(es[1..], i - 1);
      assert es[1..][i - 1] == es[i];
    }
  }

  predicate RulesSingleLine(rules: seq<GrammarRule>) {
    forall i :: 0 <= i < |rules| ==> '\n' !in rules[i].name && SingleLine(rules[i].pattern)
  }

  lemma DigitsOneLine(n: nat)
    ensures '\n' !in ToDigits(n, 10)
  {
    assert forall i :: 0 <= i < |ToDigits(n, 10)| ==> IsDigitOf(ToDigits(n, 10)[i], 10);
    assert !IsDigitOf('\n', 10);
  }

  lemma BoundsOneLine(b: Option<int>)
    ensures '\n' !in MinText(b) && '\n' !in MaxText(b)
  {
    if b.Some? {
      if b.value < 0 { DigitsOneLine(-b.value); } else { DigitsOneLine(b.value); }
    }
  }

  lemma CharOneLine(v: int)
    ensures '\n' !in FormatChar(v)
  {
    var r := FormatChar(v);
    if !IsQuotable(v) {
      assert forall i :: 2 <= i < |r| ==> r[i] != '\n';
      assert r[0] != '\n' && r[1] != '\n';
    }
  }

  /** A pattern whose names are single-line prints on a single line. */
  lemma {:induction false} FormOneLine(p: Pattern)
    requires SingleLine(p)
    ensures '\n' !in ToSExpr(p)
    decreases Size(p), 0
  {
    match p
    case Terminal(v, cs) =>
      EscapeRoundTrip(v);
      Unbroken(if cs then "(terminal-cs \"" else "(terminal \"", Escape(v));
    case CharacterValue(c) =>
      CharOneLine(c);
      Unbroken("(char ", FormatChar(c));
    case CharacterRange(lo, hi) =>
      CharOneLine(lo);
      CharOneLine(hi);
      Unbroken("(char-range ", FormatChar(lo));
      Unbroken("(char-range " + FormatChar(lo) + " ", FormatChar(hi));
    case RuleReference(name) =>
      Unbroken("(ref ", name);
    case Sequence(es) => ListOneLine("seq", es);
    case Alternation(alts) => ListOneLine("alt", alts);
    case Repetition(e, min, max) =>
      BoundsOneLine(min);
      BoundsOneLine(max);
      FormOneLine(e);
      Unbroken("(repeat ", MinText(min));
      Unbroken("(repeat " + MinText(min) + " ", MaxText(max));
      Unbroken("(repeat " + MinText(min) + " " + MaxText(max) + " ", ToSExpr(e));
  }

  /** A list of single-line patterns under a single-line name prints on a
      single line. */
  lemma {:induction false} ListOneLine(name: string, es: seq<Pattern>)
    requires '\n' !in name && AllSingleLine(es)
    ensures '\n' !in FormatList(name, es)
    decreases SizeAll(es), 2
  {
    if |es| == 0 {
      Unbroken("(", name);
    } else if |es| == 1 {
      SizeBound(es, 0);
      FormOneLine(es[0]);
    } else {
      ItemsOneLine(es);
      Unbroken("(", name);
      Unbroken("(" + name, Items(es));
    }
  }

  lemma {:induction false} ItemsOneLine(es: seq<Pattern>)
    requires AllSingleLine(es)
    ensures '\n' !in Items(es)
    decreases SizeAll(es), 1
  {
    if |es| > 0 {
      SizeBound(es, 0);
      FormOneLine(es[0]);
      TailSingleLine(es);
      ItemsOneLine(es[1..]);
      Unbroken(" ", ToSExpr(es[0]));
      Unbroken(" " + ToSExpr(es[0]), Items(es[1..]));
    }
  }

  lemma TailSingleLine(es: seq<Pattern>)
    requires |es| > 0 && AllSingleLine(es)
    ensures AllSingleLine(es[1..])
  {
    forall i | 0 <= i < |es[1..]| ensures SingleLine(es[1..][i]) {
      assert es[1..][i] == es[i + 1];
      SizeBound(es, i + 1);
    }
  }

  /** Two pieces without a line break join without one. */
  lemma Unbroken(a: string, b: string)
    requires '\n' !in a && '\n' !in b
    ensures '\n' !in a + b
  {
  }

  /** The lines of a grammar's form. */
  function GrammarLines(rules: seq<GrammarRule>): (lines: seq<string>)
    ensures |lines| == |rules| + 2
    ensures lines[0] == "(grammar" && lines[|rules| + 1] == ")"
    ensures forall i :: 0 <= i < |rules| ==> lines[i + 1] == "  " + RuleToSExpr(rules[i])
  {
    ["(grammar"] + seq(|rules|, i requires 0 <= i < |rules| => "  " + RuleToSExpr(rules[i])) + [")"]
  }

  lemma {:induction false} LinesJoined(rules: seq<GrammarRule>)
    ensures RuleLines(rules) + ")" == Join(GrammarLines(rules)[1..], '\n')
    decreases |rules|
  {
    var tail := GrammarLines(rules)[1..];
    if |rules| == 0 {
      assert tail == [")"];
    } else {
      LinesJoined(rules[1..]);
      assert tail[1..] == GrammarLines(rules[1..])[1..];
      assert tail[0] == "  " + RuleToSExpr(rules[0]);
    }
  }

  /** The form of a grammar is its lines joined by line breaks. */
  lemma GrammarJoined(rules: seq<GrammarRule>)
    ensures GrammarToSExpr(rules) == Join(GrammarLines(rules), '\n')
  {
    var lines := GrammarLines(rules);
    LinesJoined(rules);
    assert Join(lines, '\n') == lines[0] + ['\n'] + Join(lines[1..], '\n');
  }

  lemma LinesSingle(rules: seq<GrammarRule>)
    requires RulesSingleLine(rules)
    ensures forall i :: 0 <= i < |GrammarLines(rules)| ==> '\n' !in GrammarLines(rules)[i]
  {
    forall i | 0 <= i < |GrammarLines(rules)| ensures '\n' !in GrammarLines(rules)[i] {
      LineSingle(rules, i);
    }
  }

  lemma LineSingle(rules: seq<GrammarRule>, i: nat)
    requires RulesSingleLine(rules) && i < |rules| + 2
    ensures '\n' !in GrammarLines(rules)[i]
  {
    if 0 < i <= |rules| {
      RuleOneLine(rules[i - 1]);
    }
  }

  lemma RuleOneLine(rule: GrammarRule)
    requires '\n' !in rule.name && SingleLine(rule.pattern)
    ensures '\n' !in "  " + RuleToSExpr(rule)
  {
    FormOneLine(rule.pattern);
    Unbroken("(rule ", rule.name);
    Unbroken("(rule " + rule.name + " ", ToSExpr(rule.pattern));
    Unbroken("(rule " + rule.name + " " + ToSExpr(rule.pattern), ")");
    Unbroken("  ", RuleToSExpr(rule));
  }

  /** When no name holds a line break, a grammar's form is a header line,
      one line per rule in order, and a closing line. */
  lemma GrammarLayout(rules: seq<GrammarRule>)
    requires RulesSingleLine(rules)
    ensures Split(GrammarToSExpr(rules), '\n') == GrammarLines(rules)
  {
    GrammarJoined(rules);
    LinesSingle(rules);
    SplitJoin(GrammarLines(rules), '\n');
  }
}
