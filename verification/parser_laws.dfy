/** What the parser reads back: the tokens of every expression it can
    build, printed one token per node, parse to that expression, at every
    level of the grammar and for whole rule lists; plus the places where
    the parser refuses its input. */
module ParserLaws {
  import opened Wrappers
  import opened Errors
  import opened Text
  import opened Tokens
  import opened TokenStreams
  import opened Parsing
  import TokenLaws
  import A = Ast

  // ---------------------------------------------------------------------
  // The expressions the parser builds
  // ---------------------------------------------------------------------

  /** A repeat bound the decoder reads back: absent, or a non-negative
      32-bit value. */
  predicate BoundOk(b: Option<int>) {
    b.Some? ==> 0 <= b.value <= IntMax
  }

  /** The element level: a name, a literal, a value, prose, or a bracketed
      alternation. */
  predicate IsElementForm(e: A.Expression)
    decreases A.Size(e), 0
  {
    match e
    case RuleRef(_) => true
    case Literal(_, _) => true
    case ProseVal(_) => true
    case NumberVal(_) => true
    case Group(inner) => IsAlternationForm(inner)
    case Option(inner) => IsAlternationForm(inner)
    case _ => false
  }

  /** An element, or an element under one repeat prefix. */
  predicate IsRepetitionForm(e: A.Expression)
    decreases A.Size(e), 1
  {
    if e.Repetition? then BoundOk(e.min) && BoundOk(e.max) && IsElementForm(e.element)
    else IsElementForm(e)
  }

  predicate RepetitionForms(es: seq<A.Expression>)
    decreases A.SizeAll(es), 2
  {
    |es| == 0 ||
    (A.SizePositive(es[0]);
     IsRepetitionForm(es[0]) && RepetitionForms(es[1..]))
  }

  /** A repetition, or two or more of them in a row. */
  predicate IsConcatenationForm(e: A.Expression)
    decreases A.Size(e), 3
  {
    if e.Concatenation? then |e.elements| >= 2 && RepetitionForms(e.elements)
    else IsRepetitionForm(e)
  }

  predicate ConcatenationForms(es: seq<A.Expression>)
    decreases A.SizeAll(es), 4
  {
    |es| == 0 ||
    (A.SizePositive(es[0]);
     IsConcatenationForm(es[0]) && ConcatenationForms(es[1..]))
  }

  /** A concatenation, or two or more of them as options. */
  predicate IsAlternationForm(e: A.Expression)
    decreases A.Size(e), 5
  {
    if e.Alternation? then |e.options| >= 2 && ConcatenationForms(e.options)
    else IsConcatenationForm(e)
  }

  // ---------------------------------------------------------------------
  // Printing expressions as tokens
  // ---------------------------------------------------------------------

  function Tok(k: TokenKind, v: string): Token {
    Token(k, v, 1, 1)
  }

  function AsNat(b: Option<int>): Option<nat> {
    if b.Some? && b.value >= 0 then Some(b.value) else None
  }

  /** The text of a repeat prefix with the given bounds. */
  function RepeatValue(min: Option<int>, max: Option<int>): string {
    TokenLaws.BoundText(AsNat(min)) + "*" + TokenLaws.BoundText(AsNat(max))
  }

  /** The tokens of an expression: one per leaf, a bracket pair around a
      group or option, a repeat token before a repeated element, nothing
      between the items of a concatenation and a slash between options. */
  function Print(e: A.Expression): seq<Token>
    decreases A.Size(e), 0
  {
    match e
    case RuleRef(n) => [Tok(RuleName, n)]
    case Literal(v, cs) =>
      if cs then [Tok(CaseSensitiveCharVal, "'" + v + "'")] else [Tok(CharVal, "\"" + v + "\"")]
    case ProseVal(v) => [Tok(ProseVal, v)]
    case NumberVal(v) => [Tok(NumVal, v)]
    case Group(inner) => [Tok(OpenParen, "(")] + Print(inner) + [Tok(CloseParen, ")")]
    case Option(inner) => [Tok(OpenBracket, "[")] + Print(inner) + [Tok(CloseBracket, "]")]
    case Repetition(min, max, element) => [Tok(Repeat, RepeatValue(min, max))] + Print(element)
    case Concatenation(elements) => PrintAll(elements)
    case Alternation(options) =>
      if |options| == 0 then [] else
        assert A.SizeAll(options) == A.Size(options[0]) + A.SizeAll(options[1..]);
        Print(options[0]) + PrintSlashed(options[1..])
  }

  /** The tokens of several expressions, side by side. */
  function PrintAll(es: seq<A.Expression>): seq<Token>
    decreases A.SizeAll(es), 1
  {
    if |es| == 0 then []
    else
      A.SizePositive(es[0]);
      Print(es[0]) + PrintAll(es[1..])
  }

  /** The tokens of several expressions, each after a slash. */
  function PrintSlashed(es: seq<A.Expression>): seq<Token>
    decreases A.SizeAll(es), 1
  {
    if |es| == 0 then []
    else
      A.SizePositive(es[0]);
      [Tok(Slash, "/")] + Print(es[0]) + PrintSlashed(es[1..])
  }

  // ---------------------------------------------------------------------
  // Token lists that hold a printed text
  // ---------------------------------------------------------------------

  /** `ts` sits in `toks` from index `p`. */
  predicate At(toks: seq<Token>, p: nat, ts: seq<Token>) {
    p + |ts| <= |toks| && toks[p..p + |ts|] == ts
  }

  lemma AtSplit(toks: seq<Token>, p: nat, a: seq<Token>, b: seq<Token>)
    requires At(toks, p, a + b)
    ensures At(toks, p, a) && At(toks, p + |a|, b)
  {
    forall i | 0 <= i < |a| ensures toks[p..p + |a|][i] == a[i] {
      assert toks[p..p + |a + b|][i] == (a + b)[i];
    }
    forall i | 0 <= i < |b| ensures toks[p + |a|..p + |a| + |b|][i] == b[i] {
      assert toks[p..p + |a + b|][|a| + i] == (a + b)[|a| + i];
    }
  }

  /** `AtSplit` with the position of the second part named. */
  lemma AtSplitTo(toks: seq<Token>, p: nat, a: seq<Token>, b: seq<Token>, q: nat)
    requires At(toks, p, a + b) && q == p + |a|
    ensures At(toks, p, a) && At(toks, q, b)
  {
    AtSplit(toks, p, a, b);
  }

  /** A token list between an opening and a closing token. */
  lemma Bracketed(toks: seq<Token>, p: nat, open: Token, inner: seq<Token>, close: Token, q: nat)
    requires At(toks, p, [open] + inner + [close]) && q == p + 1 + |inner|
    ensures q < |toks| && toks[p] == open && toks[q] == close && At(toks, p + 1, inner)
  {
    AtSplitTo(toks, p, [open] + inner, [close], q);
    AfterOne(toks, p, open, inner);
    AtHead(toks, q, [close]);
  }

  lemma AtHead(toks: seq<Token>, p: nat, ts: seq<Token>)
    requires At(toks, p, ts) && |ts| > 0
    ensures p < |toks| && toks[p] == ts[0]
  {
    assert toks[p..p + |ts|][0] == toks[p];
  }

  /** The first child and the rest are each smaller than the list. */
  lemma HeadAndTailSmaller(es: seq<A.Expression>)
    requires |es| > 0
    ensures A.Size(es[0]) + A.SizeAll(es[1..]) == A.SizeAll(es)
    ensures A.SizeAll(es[1..]) < A.SizeAll(es) && A.Size(es[0]) <= A.SizeAll(es)
  {
    A.SizePositive(es[0]);
  }

  /** Taking the head of a list onto an accumulator. */
  lemma AppendHead<T>(xs: seq<T>, ys: seq<T>)
    ensures |ys| == 0 ==> xs + ys == xs
    ensures |ys| > 0 ==> xs + [ys[0]] + ys[1..] == xs + ys && [ys[0]] + ys[1..] == ys
  {
    if |ys| > 0 {
      assert [ys[0]] + ys[1..] == ys;
    }
  }

  /** The kinds that start the print of an element. */
  const ElementKinds: set<TokenKind> :=
    {RuleName, OpenParen, OpenBracket, CharVal, CaseSensitiveCharVal, NumVal, ProseVal}

  predicate StartsWith(ts: seq<Token>, kinds: set<TokenKind>) {
    |ts| > 0 && ts[0].kind in kinds
  }

  lemma ElementStarts(e: A.Expression)
    requires IsElementForm(e)
    ensures StartsWith(Print(e), ElementKinds)
  {}

  lemma RepetitionStarts(e: A.Expression)
    requires IsRepetitionForm(e)
    ensures StartsWith(Print(e), ElementKinds + {Repeat})
  {
    if !e.Repetition? {
      ElementStarts(e);
    }
  }

  lemma ConcatenationStarts(e: A.Expression)
    requires IsConcatenationForm(e)
    ensures StartsWith(Print(e), ElementKinds + {Repeat})
  {
    if e.Concatenation? {
      RepetitionStarts(e.elements[0]);
      assert Print(e) == Print(e.elements[0]) + PrintAll(e.elements[1..]);
    } else {
      RepetitionStarts(e);
    }
  }

  lemma AlternationStarts(e: A.Expression)
    requires IsAlternationForm(e)
    ensures StartsWith(Print(e), ElementKinds + {Repeat})
  {
    if e.Alternation? {
      ConcatenationStarts(e.options[0]);
    } else {
      ConcatenationStarts(e);
    }
  }

  // ---------------------------------------------------------------------
  // Settling on a token
  // ---------------------------------------------------------------------

  /** A settled cursor stays where it is. */
  lemma SettledStays(s: TokenStream)
    requires Valid(s) && Settled(s)
    ensures SkipTrivia(s) == s && SkipContinuationLines(s) == s
  {}

  /** A cursor on the first token of a printed expression is settled and
      on an element start. */
  lemma OnPrinted(toks: seq<Token>, p: nat, ts: seq<Token>)
    requires At(toks, p, ts) && StartsWith(ts, ElementKinds + {Repeat})
    ensures Current(TokenStream(toks, p)) == ts[0]
    ensures Valid(TokenStream(toks, p)) && Settled(TokenStream(toks, p)) && IsElementStart(TokenStream(toks, p))
    ensures !Match(TokenStream(toks, p), EndOfInput) && !IsAtRuleBoundary(TokenStream(toks, p))
  {
    assert toks[p] == ts[0];
    SettledStays(TokenStream(toks, p));
  }

  /** A cursor on a token of a fixed kind that is neither trivia nor a line
      break is settled where it is. */
  lemma OnPunctuation(toks: seq<Token>, p: nat, k: TokenKind)
    requires p < |toks| && toks[p].kind == k && k in {Slash, CloseParen, CloseBracket, Equal, EndOfInput}
    ensures Valid(TokenStream(toks, p)) && Settled(TokenStream(toks, p)) && !IsElementStart(TokenStream(toks, p))
  {
    SettledStays(TokenStream(toks, p));
  }

  // ---------------------------------------------------------------------
  // One step of each parsing function
  // ---------------------------------------------------------------------

  lemma ConcatenationStep(s: TokenStream, first: A.Expression, mid: TokenStream,
                          all: seq<A.Expression>, t: TokenStream)
    requires Valid(s) && ParseRepetition(s) == Ok(Parsed(first, mid))
    requires ConcatenationRest(mid, [first]) == Ok(Parsed(all, t))
    ensures ParseConcatenation(s) == Ok(Parsed(if |all| == 1 then all[0] else A.Concatenation(all), t))
  {}

  lemma AlternationStep(s: TokenStream, first: A.Expression, mid: TokenStream,
                        all: seq<A.Expression>, t: TokenStream)
    requires Valid(s) && ParseConcatenation(s) == Ok(Parsed(first, mid))
    requires AlternationRest(mid, [first]) == Ok(Parsed(all, t))
    ensures ParseAlternation(s) == Ok(Parsed(if |all| == 1 then all[0] else A.Alternation(all), t))
  {}

  /** The concatenation loop on an element start: one repetition, then on. */
  lemma ConcatenationRestStep(s: TokenStream, elements: seq<A.Expression>, next: A.Expression, mid: TokenStream)
    requires Valid(s) && Settled(s) && IsElementStart(s)
    requires ParseRepetition(s) == Ok(Parsed(next, mid))
    ensures ConcatenationRest(s, elements) == ConcatenationRest(mid, elements + [next])
  {
    SettledStays(s);
  }

  /** The concatenation loop stops on a settled token that starts no element. */
  lemma ConcatenationRestStops(s: TokenStream, elements: seq<A.Expression>)
    requires Valid(s) && Settled(s) && !IsElementStart(s)
    ensures ConcatenationRest(s, elements) == Ok(Parsed(elements, s))
  {
    SettledStays(s);
  }

  /** The alternation loop on a slash: one concatenation after it, then on. */
  lemma AlternationRestStep(s: TokenStream, u: TokenStream, options: seq<A.Expression>, next: A.Expression,
                            mid: TokenStream)
    requires Valid(s) && Match(s, Slash) && u == MoveNext(s) && Settled(u)
    requires ParseConcatenation(u) == Ok(Parsed(next, mid))
    ensures AlternationRest(s, options) == AlternationRest(mid, options + [next])
  {
    SettledStays(s);
    SettledStays(u);
  }

  /** The alternation loop stops on a settled token that is no slash. */
  lemma AlternationRestStops(s: TokenStream, options: seq<A.Expression>)
    requires Valid(s) && Settled(s) && !Match(s, Slash)
    ensures AlternationRest(s, options) == Ok(Parsed(options, s))
  {
    SettledStays(s);
  }

  lemma RepetitionStep(s: TokenStream, u: TokenStream, min: Option<int>, max: Option<int>,
                       element: A.Expression, t: TokenStream)
    requires Valid(s) && Match(s, Repeat) && GetRepetitionBounds(Current(s)) == Ok((min, max))
    requires u == MoveNext(s) && Settled(u) && ParseElement(u) == Ok(Parsed(element, t))
    ensures ParseRepetition(s) == Ok(Parsed(A.Repetition(min, max, element), t))
  {
    SettledStays(u);
  }

  /** `( alternation )`. */
  lemma GroupStep(s: TokenStream, u: TokenStream, inner: A.Expression, t: TokenStream)
    requires Valid(s) && Match(s, OpenParen)
    requires u == MoveNext(s) && Settled(u) && ParseAlternation(u) == Ok(Parsed(inner, t))
    requires Match(t, CloseParen)
    ensures ParseGroup(s) == Ok(Parsed(A.Group(inner), MoveNext(t)))
  {
    SettledStays(u);
    SettledStays(t);
  }

  /** `[ alternation ]`. */
  lemma OptionStep(s: TokenStream, u: TokenStream, inner: A.Expression, t: TokenStream)
    requires Valid(s) && Match(s, OpenBracket)
    requires u == MoveNext(s) && Settled(u) && ParseAlternation(u) == Ok(Parsed(inner, t))
    requires Match(t, CloseBracket)
    ensures ParseOption(s) == Ok(Parsed(A.Option(inner), MoveNext(t)))
  {
    SettledStays(u);
    SettledStays(t);
  }

  // ---------------------------------------------------------------------
  // Expressions read back
  // ---------------------------------------------------------------------

  lemma {:induction false} GroupRoundTrip(e: A.Expression, toks: seq<Token>, p: nat, r: nat)
    requires e.Group? && IsElementForm(e) && At(toks, p, Print(e)) && r == p + |Print(e)|
    ensures ParseGroup(TokenStream(toks, p)) == Ok(Parsed(e, TokenStream(toks, r)))
    decreases A.Size(e), 0
  {
    var inner := Print(e.inner);
    var open, close := Tok(OpenParen, "("), Tok(CloseParen, ")");
    var q := r - 1;
    assert Print(e) == [open] + inner + [close];
    assert At(toks, p, [open] + inner + [close]);
    Bracketed(toks, p, open, inner, close, q);
    AlternationStarts(e.inner);
    OnPrinted(toks, p + 1, inner);
    OnPunctuation(toks, q, CloseParen);
    AlternationRoundTrip(e.inner, toks, p + 1, q);
    assert MoveNext(TokenStream(toks, q)) == TokenStream(toks, r);
    GroupStep(TokenStream(toks, p), TokenStream(toks, p + 1), e.inner, TokenStream(toks, q));
  }

  lemma {:induction false} OptionRoundTrip(e: A.Expression, toks: seq<Token>, p: nat, r: nat)
    requires e.Option? && IsElementForm(e) && At(toks, p, Print(e)) && r == p + |Print(e)|
    ensures ParseOption(TokenStream(toks, p)) == Ok(Parsed(e, TokenStream(toks, r)))
    decreases A.Size(e), 0
  {
    var inner := Print(e.inner);
    var open, close := Tok(OpenBracket, "["), Tok(CloseBracket, "]");
    var q := r - 1;
    assert Print(e) == [open] + inner + [close];
    assert At(toks, p, [open] + inner + [close]);
    Bracketed(toks, p, open, inner, close, q);
    AlternationStarts(e.inner);
    OnPrinted(toks, p + 1, inner);
    OnPunctuation(toks, q, CloseBracket);
    AlternationRoundTrip(e.inner, toks, p + 1, q);
    assert MoveNext(TokenStream(toks, q)) == TokenStream(toks, r);
    OptionStep(TokenStream(toks, p), TokenStream(toks, p + 1), e.inner, TokenStream(toks, q));
  }

  /** A leaf's one token parses back to the leaf. */
  lemma LeafRoundTrip(e: A.Expression, toks: seq<Token>, p: nat)
    requires (e.RuleRef? || e.Literal? || e.ProseVal? || e.NumberVal?) && At(toks, p, Print(e))
    ensures ParseElement(TokenStream(toks, p)) == Ok(Parsed(e, TokenStream(toks, p + 1)))
  {
    AtHead(toks, p, Print(e));
    var s := TokenStream(toks, p);
    assert MoveNext(s) == TokenStream(toks, p + 1);
    LeafParses(s, e);
    LeafDispatch(s);
  }

  /** A single-token element read from its printed token. */
  lemma LeafParses(s: TokenStream, e: A.Expression)
    requires (e.RuleRef? || e.Literal? || e.ProseVal? || e.NumberVal?) && Valid(s) && Current(s) == Print(e)[0]
    ensures !Match(s, OpenParen) && !Match(s, OpenBracket)
    ensures ParseLeaf(s) == Ok(Parsed(e, MoveNext(s)))
  {
    match e
    case RuleRef(n) =>
      assert Current(s) == Tok(RuleName, n);
    case Literal(v, cs) =>
      TokenLaws.CharValRoundTrip(Print(e)[0].kind, v, 1, 1);
    case ProseVal(v) =>
      assert Current(s) == Tok(ProseVal, v);
    case NumberVal(v) =>
      assert Current(s) == Tok(NumVal, v);
  }

  /** Any other token is read as a single-token element. */
  lemma LeafDispatch(s: TokenStream)
    requires Valid(s) && !Match(s, OpenParen) && !Match(s, OpenBracket)
    ensures ParseElement(s) == ParseLeaf(s)
  {}

  /** A parenthesis starts a group. */
  lemma GroupDispatch(s: TokenStream)
    requires Valid(s) && Match(s, OpenParen)
    ensures ParseElement(s) == ParseGroup(s)
  {}

  /** A bracket starts an option. */
  lemma OptionDispatch(s: TokenStream)
    requires Valid(s) && Match(s, OpenBracket)
    ensures ParseElement(s) == ParseOption(s)
  {}

  /** An element's tokens parse back to the element, consuming exactly them. */
  lemma {:induction false} ElementRoundTrip(e: A.Expression, toks: seq<Token>, p: nat, r: nat)
    requires IsElementForm(e) && At(toks, p, Print(e)) && r == p + |Print(e)|
    ensures ParseElement(TokenStream(toks, p)) == Ok(Parsed(e, TokenStream(toks, r)))
    decreases A.Size(e), 1
  {
    AtHead(toks, p, Print(e));
    if e.Group? {
      GroupDispatch(TokenStream(toks, p));
      GroupRoundTrip(e, toks, p, r);
    } else if e.Option? {
      OptionDispatch(TokenStream(toks, p));
      OptionRoundTrip(e, toks, p, r);
    } else {
      LeafRoundTrip(e, toks, p);
    }
  }

  lemma BoundsReadBack(min: Option<int>, max: Option<int>)
    requires BoundOk(min) && BoundOk(max)
    ensures GetRepetitionBounds(Tok(Repeat, RepeatValue(min, max))) == Ok((min, max))
  {
    TokenLaws.RepeatRoundTrip(AsNat(min), AsNat(max), 1, 1);
  }

  /** A repetition's tokens parse back to it. */
  lemma {:induction false} RepetitionRoundTrip(e: A.Expression, toks: seq<Token>, p: nat, r: nat)
    requires IsRepetitionForm(e) && At(toks, p, Print(e)) && r == p + |Print(e)|
    ensures ParseRepetition(TokenStream(toks, p)) == Ok(Parsed(e, TokenStream(toks, r)))
    decreases A.Size(e), 2
  {
    if e.Repetition? {
      var head := Tok(Repeat, RepeatValue(e.min, e.max));
      AtSplit(toks, p, [head], Print(e.element));
      AtHead(toks, p, [head]);
      BoundsReadBack(e.min, e.max);
      ElementStarts(e.element);
      OnPrinted(toks, p + 1, Print(e.element));
      ElementRoundTrip(e.element, toks, p + 1, r);
      RepetitionStep(TokenStream(toks, p), TokenStream(toks, p + 1), e.min, e.max, e.element, TokenStream(toks, r));
    } else {
      ElementStarts(e);
      AtHead(toks, p, Print(e));
      ElementRoundTrip(e, toks, p, r);
    }
  }

  /** A printed list of repetitions: the first, then the rest. */
  lemma AllSplit(rs: seq<A.Expression>, toks: seq<Token>, p: nat)
    requires |rs| > 0 && At(toks, p, PrintAll(rs))
    ensures At(toks, p, Print(rs[0])) && At(toks, p + |Print(rs[0])|, PrintAll(rs[1..]))
    ensures |PrintAll(rs)| == |Print(rs[0])| + |PrintAll(rs[1..])|
  {
    assert PrintAll(rs) == Print(rs[0]) + PrintAll(rs[1..]);
    assert At(toks, p, Print(rs[0]) + PrintAll(rs[1..]));
    AtSplit(toks, p, Print(rs[0]), PrintAll(rs[1..]));
  }

  /** The concatenation loop reads printed repetitions one after another,
      up to a settled token that cannot start an element. */
  lemma {:induction false} ConcatenationRestRoundTrip(rs: seq<A.Expression>, elements: seq<A.Expression>,
                                                      toks: seq<Token>, p: nat, r: nat)
    requires RepetitionForms(rs) && At(toks, p, PrintAll(rs)) && r == p + |PrintAll(rs)|
    requires Settled(TokenStream(toks, r)) && !IsElementStart(TokenStream(toks, r))
    ensures ConcatenationRest(TokenStream(toks, p), elements) == Ok(Parsed(elements + rs, TokenStream(toks, r)))
    decreases A.SizeAll(rs), 4
  {
    if |rs| == 0 {
      AppendHead(elements, rs);
      ConcatenationRestStops(TokenStream(toks, p), elements);
    } else {
      NextRepetitionRoundTrip(rs, elements, toks, p, r);
    }
  }

  /** One round of the concatenation loop on a printed repetition, then the
      rest of the loop. */
  lemma {:induction false} NextRepetitionRoundTrip(rs: seq<A.Expression>, elements: seq<A.Expression>,
                                                   toks: seq<Token>, p: nat, r: nat)
    requires |rs| > 0 && RepetitionForms(rs) && At(toks, p, PrintAll(rs)) && r == p + |PrintAll(rs)|
    requires Settled(TokenStream(toks, r)) && !IsElementStart(TokenStream(toks, r))
    ensures ConcatenationRest(TokenStream(toks, p), elements) == Ok(Parsed(elements + rs, TokenStream(toks, r)))
    decreases A.SizeAll(rs), 3
  {
    HeadAndTailSmaller(rs);
    var q := p + |Print(rs[0])|;
    assert RepetitionForms(rs[1..]) && At(toks, q, PrintAll(rs[1..])) && r == q + |PrintAll(rs[1..])| by {
      FormsSplit(rs);
      AllSplit(rs, toks, p);
    }
    assert ConcatenationRest(TokenStream(toks, p), elements) == ConcatenationRest(TokenStream(toks, q), elements + [rs[0]]) by {
      FormsSplit(rs);
      AllSplit(rs, toks, p);
      RepetitionRoundTrip(rs[0], toks, p, q);
      FirstRepetitionStep(rs, elements, toks, p, q);
    }
    ConcatenationRestRoundTrip(rs[1..], elements + [rs[0]], toks, q, r);
    AppendHead(elements, rs);
  }

  /** A list of repetition forms: its head is one, and so is its tail. */
  lemma FormsSplit(rs: seq<A.Expression>)
    requires |rs| > 0 && RepetitionForms(rs)
    ensures IsRepetitionForm(rs[0]) && RepetitionForms(rs[1..])
  {
  }

  /** The concatenation loop reads the first printed repetition and goes on
      where its tokens end. */
  lemma FirstRepetitionStep(rs: seq<A.Expression>, elements: seq<A.Expression>, toks: seq<Token>, p: nat, q: nat)
    requires |rs| > 0 && IsRepetitionForm(rs[0]) && At(toks, p, Print(rs[0]))
    requires ParseRepetition(TokenStream(toks, p)) == Ok(Parsed(rs[0], TokenStream(toks, q)))
    ensures ConcatenationRest(TokenStream(toks, p), elements) == ConcatenationRest(TokenStream(toks, q), elements + [rs[0]])
  {
    RepetitionStarts(rs[0]);
    OnPrinted(toks, p, Print(rs[0]));
    ConcatenationRestStep(TokenStream(toks, p), elements, rs[0], TokenStream(toks, q));
  }

  /** A concatenation's tokens parse back to it, up to a settled token that
      cannot start an element. */
  lemma {:induction false} ConcatenationRoundTrip(e: A.Expression, toks: seq<Token>, p: nat, r: nat)
    requires IsConcatenationForm(e) && At(toks, p, Print(e)) && r == p + |Print(e)|
    requires Settled(TokenStream(toks, r)) && !IsElementStart(TokenStream(toks, r))
    ensures ParseConcatenation(TokenStream(toks, p)) == Ok(Parsed(e, TokenStream(toks, r)))
    decreases A.Size(e), 5
  {
    if e.Concatenation? {
      var es := e.elements;
      HeadAndTailSmaller(es);
      var q := p + |Print(es[0])|;
      assert IsRepetitionForm(es[0]) && RepetitionForms(es[1..]) && At(toks, p, Print(es[0])) &&
             At(toks, q, PrintAll(es[1..])) && r == q + |PrintAll(es[1..])| by {
        assert Print(e) == PrintAll(es);
        assert At(toks, p, PrintAll(es));
        AllSplit(es, toks, p);
        FormsSplit(es);
      }
      RepetitionRoundTrip(es[0], toks, p, q);
      ConcatenationRestRoundTrip(es[1..], [es[0]], toks, q, r);
      AppendHead([], es);
      ConcatenationStep(TokenStream(toks, p), es[0], TokenStream(toks, q), es, TokenStream(toks, r));
    } else {
      RepetitionRoundTrip(e, toks, p, r);
      ConcatenationRestStops(TokenStream(toks, r), [e]);
      ConcatenationStep(TokenStream(toks, p), e, TokenStream(toks, r), [e], TokenStream(toks, r));
    }
  }

  /** The alternation loop reads printed options, each after a slash, up to
      a settled token that is no slash. */
  lemma {:induction false} AlternationRestRoundTrip(cs: seq<A.Expression>, options: seq<A.Expression>,
                                                    toks: seq<Token>, p: nat, r: nat)
    requires ConcatenationForms(cs) && At(toks, p, PrintSlashed(cs)) && r == p + |PrintSlashed(cs)|
    requires Settled(TokenStream(toks, r)) && !IsElementStart(TokenStream(toks, r)) && !Match(TokenStream(toks, r), Slash)
    ensures AlternationRest(TokenStream(toks, p), options) == Ok(Parsed(options + cs, TokenStream(toks, r)))
    decreases A.SizeAll(cs), 7
  {
    if |cs| == 0 {
      AppendHead(options, cs);
      AlternationRestStops(TokenStream(toks, p), options);
    } else {
      SlashedOptionRoundTrip(cs, options, toks, p, r);
    }
  }

  /** A token list placed after a single token. */
  lemma AfterOne(toks: seq<Token>, p: nat, t: Token, ts: seq<Token>)
    requires At(toks, p, [t] + ts)
    ensures p < |toks| && toks[p] == t && At(toks, p + 1, ts)
  {
    AtSplit(toks, p, [t], ts);
    AtHead(toks, p, [t]);
  }

  /** A token, then two token lists, placed one after the other. */
  lemma OneThenTwo(toks: seq<Token>, p: nat, t: Token, first: seq<Token>, rest: seq<Token>)
    requires At(toks, p, [t] + first + rest)
    ensures p < |toks| && toks[p] == t && At(toks, p + 1, first) && At(toks, p + 1 + |first|, rest)
  {
    AtSplitTo(toks, p, [t] + first, rest, p + 1 + |first|);
    AfterOne(toks, p, t, first);
  }

  /** A printed `/ option` list: the slash, the first option, the rest. */
  lemma SlashedSplit(cs: seq<A.Expression>, toks: seq<Token>, p: nat)
    requires |cs| > 0 && At(toks, p, PrintSlashed(cs))
    ensures p < |toks| && toks[p].kind == Slash && At(toks, p + 1, Print(cs[0]))
    ensures At(toks, p + 1 + |Print(cs[0])|, PrintSlashed(cs[1..]))
    ensures |PrintSlashed(cs)| == 1 + |Print(cs[0])| + |PrintSlashed(cs[1..])|
  {
    SlashedHead(cs, toks, p);
    SlashedRest(cs, toks, p);
  }

  /** The slash and the first option of a printed `/ option` list. */
  lemma {:induction false} SlashedHead(cs: seq<A.Expression>, toks: seq<Token>, p: nat)
    requires |cs| > 0 && At(toks, p, PrintSlashed(cs))
    ensures p < |toks| && toks[p].kind == Slash && At(toks, p + 1, Print(cs[0]))
  {
    SlashedUnfolds(cs);
    OneThenTwo(toks, p, Tok(Slash, "/"), Print(cs[0]), PrintSlashed(cs[1..]));
  }

  /** The options after the first of a printed `/ option` list. */
  lemma {:induction false} SlashedRest(cs: seq<A.Expression>, toks: seq<Token>, p: nat)
    requires |cs| > 0 && At(toks, p, PrintSlashed(cs))
    ensures At(toks, p + 1 + |Print(cs[0])|, PrintSlashed(cs[1..]))
    ensures |PrintSlashed(cs)| == 1 + |Print(cs[0])| + |PrintSlashed(cs[1..])|
  {
    SlashedUnfolds(cs);
    OneThenTwo(toks, p, Tok(Slash, "/"), Print(cs[0]), PrintSlashed(cs[1..]));
  }

  /** A non-empty `/ option` list is a slash, the first option, the rest. */
  lemma SlashedUnfolds(cs: seq<A.Expression>)
    requires |cs| > 0
    ensures PrintSlashed(cs) == [Tok(Slash, "/")] + Print(cs[0]) + PrintSlashed(cs[1..])
  {}

  /** Where one option of the loop ends: on the next slash, or at the end
      of the list. */
  lemma OptionEnd(cs: seq<A.Expression>, toks: seq<Token>, q: nat, r: nat)
    requires At(toks, q, PrintSlashed(cs)) && r == q + |PrintSlashed(cs)|
    requires Settled(TokenStream(toks, r)) && !IsElementStart(TokenStream(toks, r))
    ensures Valid(TokenStream(toks, q)) && Settled(TokenStream(toks, q)) && !IsElementStart(TokenStream(toks, q))
  {
    if |cs| > 0 {
      SlashedSplit(cs, toks, q);
      OnPunctuation(toks, q, Slash);
    }
  }

  /** One round of the alternation loop on a printed `/ option`, then the
      rest of the loop. */
  lemma {:induction false} SlashedOptionRoundTrip(cs: seq<A.Expression>, options: seq<A.Expression>,
                                                  toks: seq<Token>, p: nat, r: nat)
    requires |cs| > 0 && ConcatenationForms(cs) && At(toks, p, PrintSlashed(cs)) && r == p + |PrintSlashed(cs)|
    requires Settled(TokenStream(toks, r)) && !IsElementStart(TokenStream(toks, r)) && !Match(TokenStream(toks, r), Slash)
    ensures AlternationRest(TokenStream(toks, p), options) == Ok(Parsed(options + cs, TokenStream(toks, r)))
    decreases A.SizeAll(cs), 6
  {
    AppendHead(options, cs);
    HeadAndTailSmaller(cs);
    var q := p + 1 + |Print(cs[0])|;
    SlashedSplit(cs, toks, p);
    OptionEnd(cs[1..], toks, q, r);
    ConcatenationStarts(cs[0]);
    OnPrinted(toks, p + 1, Print(cs[0]));
    ConcatenationRoundTrip(cs[0], toks, p + 1, q);
    AlternationRestStep(TokenStream(toks, p), TokenStream(toks, p + 1), options, cs[0], TokenStream(toks, q));
    AlternationRestRoundTrip(cs[1..], options + [cs[0]], toks, q, r);
  }

  /** An alternation's tokens parse back to it, up to a settled token that
      is neither a slash nor an element start. */
  lemma {:induction false} AlternationRoundTrip(e: A.Expression, toks: seq<Token>, p: nat, r: nat)
    requires IsAlternationForm(e) && At(toks, p, Print(e)) && r == p + |Print(e)|
    requires Settled(TokenStream(toks, r)) && !IsElementStart(TokenStream(toks, r)) && !Match(TokenStream(toks, r), Slash)
    ensures ParseAlternation(TokenStream(toks, p)) == Ok(Parsed(e, TokenStream(toks, r)))
    decreases A.Size(e), 8
  {
    if e.Alternation? {
      var os := e.options;
      HeadAndTailSmaller(os);
      var q := p + |Print(os[0])|;
      AtSplit(toks, p, Print(os[0]), PrintSlashed(os[1..]));
      AtHead(toks, q, PrintSlashed(os[1..]));
      OnPunctuation(toks, q, Slash);
      ConcatenationRoundTrip(os[0], toks, p, q);
      AlternationRestRoundTrip(os[1..], [os[0]], toks, q, r);
      AppendHead([], os);
      AlternationStep(TokenStream(toks, p), os[0], TokenStream(toks, q), os, TokenStream(toks, r));
    } else {
      ConcatenationRoundTrip(e, toks, p, r);
      AlternationRestStops(TokenStream(toks, r), [e]);
      AlternationStep(TokenStream(toks, p), e, TokenStream(toks, r), [e], TokenStream(toks, r));
    }
  }

  // ---------------------------------------------------------------------
  // Rules and rule lists read back
  // ---------------------------------------------------------------------

  /** The tokens of a rule: its name, `=`, its expression. */
  function PrintRule(rule: A.Rule): seq<Token> {
    [Tok(RuleName, rule.name), Tok(Equal, "=")] + Print(rule.expr)
  }

  /** Rules one per line, the last one closed by the end of input. */
  function PrintRules(rules: seq<A.Rule>): seq<Token> {
    if |rules| == 0 then [Tok(EndOfInput, "")]
    else PrintRule(rules[0]) + (if |rules| > 1 then [Tok(CRLF, "\r\n")] else []) + PrintRules(rules[1..])
  }

  /** Rules whose expressions the parser builds. */
  predicate RuleForms(rules: seq<A.Rule>) {
    forall i :: 0 <= i < |rules| ==> IsAlternationForm(rules[i].expr)
  }

  /** `name = alternation` read up to where the rule ends. */
  lemma RuleStep(s: TokenStream, u: TokenStream, v: TokenStream, rule: A.Rule, t: TokenStream)
    requires Valid(s) && Match(s, RuleName) && Current(s).value == rule.name
    requires u == MoveNext(s) && Match(u, Equal) && v == MoveNext(u) && !IsTrivia(Current(v).kind)
    requires ParseAlternation(v) == Ok(Parsed(rule.expr, t))
    ensures ParseRule(s) == EndRule(t, rule)
  {
    NameStep(s, u);
    DefinitionStep(rule.name, u, v, rule.expr, t);
    assert A.Rule(rule.name, rule.expr) == rule;
  }

  /** A rule name, then a cursor on no trivia: the definition follows. */
  lemma NameStep(s: TokenStream, u: TokenStream)
    requires Valid(s) && Match(s, RuleName) && u == MoveNext(s) && !IsTrivia(Current(u).kind)
    ensures ParseRule(s) == RuleDefinition(Current(s).value, u)
  {
    assert Expect(s, RuleName) == Ok(Parsed(Current(s), u));
    assert SkipTrivia(u) == u;
  }

  /** `=`, then an alternation that ends on a settled token: the rule ends
      there. */
  lemma DefinitionStep(name: string, u: TokenStream, v: TokenStream, e: A.Expression, t: TokenStream)
    requires Valid(u) && Match(u, Equal) && v == MoveNext(u) && !IsTrivia(Current(v).kind)
    requires ParseAlternation(v) == Ok(Parsed(e, t))
    ensures RuleDefinition(name, u) == EndRule(t, A.Rule(name, e))
  {
    assert Expect(u, Equal) == Ok(Parsed(Current(u), v));
    assert SkipTrivia(v) == v;
    SettledStays(t);
  }

  /** A printed rule list from index `p`: the first rule, the line break,
      the rest. */
  lemma {:induction false} RulesSplit(rules: seq<A.Rule>, toks: seq<Token>, p: nat)
    requires |rules| > 0 && At(toks, p, PrintRules(rules))
    ensures At(toks, p, PrintRule(rules[0]))
    ensures var r := p + |PrintRule(rules[0])|;
      if |rules| > 1 then r < |toks| && toks[r].kind == CRLF && At(toks, r + 1, PrintRules(rules[1..]))
      else At(toks, r, PrintRules(rules[1..]))
  {
    var first, rest := PrintRule(rules[0]), PrintRules(rules[1..]);
    var r := p + |first|;
    if |rules| > 1 {
      var crlf := [Tok(CRLF, "\r\n")];
      assert PrintRules(rules) == first + crlf + rest;
      assert At(toks, p, first + crlf + rest);
      AtSplitTo(toks, p, first + crlf, rest, r + 1);
      AtSplitTo(toks, p, first, crlf, r);
      AtHead(toks, r, crlf);
    } else {
      assert PrintRules(rules) == first + rest;
      assert At(toks, p, first + rest);
      AtSplitTo(toks, p, first, rest, r);
    }
  }

  /** A printed rule list starts with a rule name or the end of input. */
  lemma {:induction false} RulesStart(rules: seq<A.Rule>, toks: seq<Token>, p: nat)
    requires At(toks, p, PrintRules(rules))
    ensures p < |toks|
    ensures |rules| == 0 ==> toks[p].kind == EndOfInput
    ensures |rules| > 0 ==> p + 1 < |toks| && toks[p].kind == RuleName && toks[p].value == rules[0].name &&
                            toks[p + 1].kind == Equal
  {
    if |rules| == 0 {
      AtHead(toks, p, PrintRules(rules));
    } else {
      RulesSplit(rules, toks, p);
      AtSplit(toks, p, [Tok(RuleName, rules[0].name), Tok(Equal, "=")], Print(rules[0].expr));
      AtHead(toks, p, [Tok(RuleName, rules[0].name), Tok(Equal, "=")]);
      assert toks[p..p + 2][1] == toks[p + 1];
    }
  }

  /** A rule name followed by `=` starts a definition. */
  lemma DefinitionAt(toks: seq<Token>, p: nat)
    requires p + 1 < |toks| && toks[p].kind == RuleName && toks[p + 1].kind == Equal
    ensures Valid(TokenStream(toks, p)) && IsAtRuleStart(TokenStream(toks, p))
    ensures !Match(TokenStream(toks, p), EndOfInput) && !IsSeparator(TokenStream(toks, p))
  {
    assert EqualAfterBlanks(toks, p + 1);
  }

  /** A line break followed by a definition ends the rule before it. */
  lemma BoundaryBeforeDefinition(toks: seq<Token>, r: nat)
    requires r + 2 < |toks| && toks[r].kind == CRLF && toks[r + 1].kind == RuleName && toks[r + 2].kind == Equal
    ensures Valid(TokenStream(toks, r)) && IsAtRuleBoundary(TokenStream(toks, r))
    ensures Settled(TokenStream(toks, r)) && !IsElementStart(TokenStream(toks, r))
    ensures !Match(TokenStream(toks, r), Slash)
  {
    assert EqualAfterBlanks(toks, r + 2);
    assert BoundaryAfterTrivia(toks, r + 1);
  }

  /** `name = expression` read back up to the token after the expression,
      where the rule's end is decided. */
  lemma RuleReadBack(rule: A.Rule, toks: seq<Token>, p: nat, r: nat)
    requires IsAlternationForm(rule.expr)
    requires p + 1 < |toks| && toks[p].kind == RuleName && toks[p].value == rule.name && toks[p + 1].kind == Equal
    requires At(toks, p + 2, Print(rule.expr)) && r == p + 2 + |Print(rule.expr)|
    requires Settled(TokenStream(toks, r)) && !IsElementStart(TokenStream(toks, r)) && !Match(TokenStream(toks, r), Slash)
    ensures ParseRule(TokenStream(toks, p)) == EndRule(TokenStream(toks, r), rule)
  {
    AlternationStarts(rule.expr);
    OnPrinted(toks, p + 2, Print(rule.expr));
    AlternationRoundTrip(rule.expr, toks, p + 2, r);
    RuleStep(TokenStream(toks, p), TokenStream(toks, p + 1), TokenStream(toks, p + 2), rule, TokenStream(toks, r));
  }

  /** One turn of the rule loop on a definition. */
  lemma RuleLoopStep(s: TokenStream, done: seq<A.Rule>, rule: A.Rule, t: TokenStream)
    requires Valid(s) && !Match(s, EndOfInput) && IsAtRuleStart(s)
    requires ParseRule(s) == Ok(Parsed(rule, t))
    ensures RuleLoop(s, done) == RuleLoop(t, done + [rule])
  {}

  /** The first printed rule starts with its name and `=`, then its
      expression up to `r`. */
  lemma {:induction false} FirstRuleHead(rules: seq<A.Rule>, toks: seq<Token>, p: nat, r: nat)
    requires |rules| > 0 && At(toks, p, PrintRules(rules)) && r == p + |PrintRule(rules[0])|
    ensures p + 1 < |toks| && toks[p].kind == RuleName && toks[p].value == rules[0].name && toks[p + 1].kind == Equal
    ensures At(toks, p + 2, Print(rules[0].expr)) && r == p + 2 + |Print(rules[0].expr)|
  {
    RulesSplit(rules, toks, p);
    RulesStart(rules, toks, p);
    AtSplit(toks, p, [Tok(RuleName, rules[0].name), Tok(Equal, "=")], Print(rules[0].expr));
  }

  /** After the first printed rule: a line break before the next
      definition, or the end of input; the rest of the list is printed from
      `next`. */
  lemma {:induction false} FirstRuleTail(rules: seq<A.Rule>, toks: seq<Token>, p: nat, r: nat, next: nat)
    requires |rules| > 0 && At(toks, p, PrintRules(rules)) && r == p + |PrintRule(rules[0])|
    requires next == r + (if |rules| > 1 then 1 else 0)
    ensures |rules| > 1 ==> r + 2 < |toks| && toks[r].kind == CRLF && toks[r + 1].kind == RuleName && toks[r + 2].kind == Equal
    ensures |rules| == 1 ==> r < |toks| && toks[r].kind == EndOfInput
    ensures At(toks, next, PrintRules(rules[1..]))
  {
    if |rules| > 1 {
      MoreRulesTail(rules, toks, p, r);
    } else {
      LastRuleTail(rules, toks, p, r);
    }
  }

  /** After the first of several printed rules: a line break, then the
      next definition. */
  lemma {:induction false} MoreRulesTail(rules: seq<A.Rule>, toks: seq<Token>, p: nat, r: nat)
    requires |rules| > 1 && At(toks, p, PrintRules(rules)) && r == p + |PrintRule(rules[0])|
    ensures r + 2 < |toks| && toks[r].kind == CRLF && toks[r + 1].kind == RuleName && toks[r + 2].kind == Equal
    ensures At(toks, r + 1, PrintRules(rules[1..]))
  {
    RulesSplit(rules, toks, p);
    RulesStart(rules[1..], toks, r + 1);
  }

  /** After the only printed rule: the end of input. */
  lemma {:induction false} LastRuleTail(rules: seq<A.Rule>, toks: seq<Token>, p: nat, r: nat)
    requires |rules| == 1 && At(toks, p, PrintRules(rules)) && r == p + |PrintRule(rules[0])|
    ensures r < |toks| && toks[r].kind == EndOfInput
    ensures At(toks, r, PrintRules(rules[1..]))
  {
    RulesSplit(rules, toks, p);
    RulesStart(rules[1..], toks, r);
  }

  /** A rule's name, `=` and expression, followed by a line break before
      the next definition or by the end of input, parse to the rule; the
      cursor stops past the line break, or on the end of input. */
  lemma RuleFollowedRoundTrip(rule: A.Rule, toks: seq<Token>, p: nat, r: nat, next: nat)
    requires IsAlternationForm(rule.expr)
    requires p + 1 < |toks| && toks[p].kind == RuleName && toks[p].value == rule.name && toks[p + 1].kind == Equal
    requires At(toks, p + 2, Print(rule.expr)) && r == p + 2 + |Print(rule.expr)|
    requires (r + 2 < |toks| && toks[r].kind == CRLF && toks[r + 1].kind == RuleName && toks[r + 2].kind == Equal && next == r + 1) ||
             (r < |toks| && toks[r].kind == EndOfInput && next == r)
    ensures Valid(TokenStream(toks, p)) && !Match(TokenStream(toks, p), EndOfInput) && IsAtRuleStart(TokenStream(toks, p))
    ensures ParseRule(TokenStream(toks, p)) == Ok(Parsed(rule, TokenStream(toks, next)))
  {
    if toks[r].kind == CRLF {
      BoundaryBeforeDefinition(toks, r);
      RuleReadBack(rule, toks, p, r);
      assert MoveNext(TokenStream(toks, r)) == TokenStream(toks, next);
    } else {
      OnPunctuation(toks, r, EndOfInput);
      RuleReadBack(rule, toks, p, r);
    }
    DefinitionAt(toks, p);
  }

  /** The first printed rule read by the loop, then the rest. */
  lemma {:induction false} NextRuleRoundTrip(rules: seq<A.Rule>, done: seq<A.Rule>, toks: seq<Token>, p: nat)
    requires |rules| > 0 && RuleForms(rules) && At(toks, p, PrintRules(rules))
    ensures RuleLoop(TokenStream(toks, p), done) == Ok(A.RuleList(done + rules))
    decreases |rules|, 0
  {
    var r := p + |PrintRule(rules[0])|;
    var next := r + (if |rules| > 1 then 1 else 0);
    var s, t := TokenStream(toks, p), TokenStream(toks, next);
    assert RuleLoop(s, done) == RuleLoop(t, done + [rules[0]]) by {
      FirstRuleHead(rules, toks, p, r);
      FirstRuleTail(rules, toks, p, r, next);
      RuleFollowedRoundTrip(rules[0], toks, p, r, next);
      RuleLoopStep(s, done, rules[0], t);
    }
    assert RuleLoop(t, done + [rules[0]]) == Ok(A.RuleList(done + rules)) by {
      FirstRuleTail(rules, toks, p, r, next);
      assert RuleForms(rules[1..]);
      RuleLoopRoundTrip(rules[1..], done + [rules[0]], toks, next);
      AppendHead(done, rules);
    }
  }

  /** The rule loop reads every printed rule, in order. */
  lemma {:induction false} RuleLoopRoundTrip(rules: seq<A.Rule>, done: seq<A.Rule>, toks: seq<Token>, p: nat)
    requires RuleForms(rules) && At(toks, p, PrintRules(rules))
    ensures RuleLoop(TokenStream(toks, p), done) == Ok(A.RuleList(done + rules))
    decreases |rules|, 1
  {
    if |rules| == 0 {
      RulesStart(rules, toks, p);
      assert done + rules == done;
    } else {
      NextRuleRoundTrip(rules, done, toks, p);
    }
  }

  /** Printing a list of rules and parsing the tokens gives the list back. */
  lemma {:induction false} RuleListRoundTrip(rules: seq<A.Rule>)
    requires RuleForms(rules)
    ensures ParseRuleList(PrintRules(rules)) == Ok(A.RuleList(rules))
  {
    var toks := PrintRules(rules);
    assert toks[0..|toks|] == toks;
    NothingLeading(rules, toks);
    RuleLoopRoundTrip(rules, [], toks, 0);
    assert [] + rules == rules;
  }

  /** A printed rule list opens on its first token: nothing precedes the
      first definition. */
  lemma {:induction false} NothingLeading(rules: seq<A.Rule>, toks: seq<Token>)
    requires At(toks, 0, PrintRules(rules))
    ensures SkipLeading(Open(toks)) == TokenStream(toks, 0)
  {
    RulesStart(rules, toks, 0);
    if |rules| > 0 {
      DefinitionAt(toks, 0);
    }
  }
}
