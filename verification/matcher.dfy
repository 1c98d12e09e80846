/** The pattern interpreter: every pattern variant tried against an input
    string at a position, with rule references resolved through the
    context and guarded against left recursion.

    The interpreter threads the context through every call and returns it;
    its contract says the context comes back unchanged, which is the
    push/pop balance of the recursion stack.

    Termination: a rule reference pushes a `(folded name, position)` pair
    that is not yet on the stack, with the name a key of the rule table and
    the position at most the input length. So the set of pairs that could
    still be pushed shrinks at every reference, and between references the
    pattern gets smaller or a repetition's remaining budget decreases. */
module Matching {
  import opened Wrappers
  import opened Text
  import opened MatchResults
  import opened Patterns
  import opened Contexts

  /** A match result together with the context after the match. */
  datatype Outcome = Outcome(result: MatchResult, context: Context)

  /** What a repetition's loop leaves behind: where it stopped, how many
      times the element matched, and the failure that ended it, if any. */
  datatype Tally = Tally(position: nat, count: nat, lastFailure: Option<MatchResult>)

  // ---------------------------------------------------------------------
  // Termination measure
  // ---------------------------------------------------------------------

  /** Every pair a rule reference could push while matching an input of length `n`. */
  ghost function Universe(keys: set<string>, n: nat): set<(string, int)> {
    set k, p | k in keys && 0 <= p <= n :: (k, p)
  }

  /** The pairs not yet on the stack. */
  ghost function Unused(ctx: Context, n: nat): set<(string, int)> {
    Universe(ctx.rules.Keys, n) - StackPairs(ctx.stack)
  }

  /** Pushing a defined rule at a position not on the stack uses up a pair. */
  lemma PushShrinksUnused(ctx: Context, name: string, pos: nat, n: nat)
    requires Fold(name) in ctx.rules && pos <= n
    requires !IsInRecursionChain(ctx.stack, name, pos)
    ensures Unused(PushRule(ctx, name, pos), n) < Unused(ctx, n)
  {
    RecursionChainIsMembership(ctx.stack, name, pos);
    assert (Fold(name), pos) in Universe(ctx.rules.Keys, n);
  }

  lemma SizePositive(p: Pattern)
    ensures Size(p) >= 1
  {}

  // ---------------------------------------------------------------------
  // Error-message text
  // ---------------------------------------------------------------------

  function FormatCharValue(v: int): string {
    if 32 <= v <= 126 then "'" + [v as char] + "' (" + HexOfInt(v) + ")"
    else HexOfInt(v)
  }

  function FormatCharRange(lo: int, hi: int): string {
    if lo >= 32 && hi <= 126 then
      "'" + [CharOfCode(lo)] + "'-'" + [CharOfCode(hi)] + "' (" + HexOfInt(lo) + "-" + HexOfInt(hi) + ")"
    else HexOfInt(lo) + "-" + HexOfInt(hi)
  }

  function FoundText(c: char): string {
    "found '" + [c] + "' (" + HexOfInt(c as int) + ")"
  }

  // ---------------------------------------------------------------------
  // Leaf patterns
  // ---------------------------------------------------------------------

  /** Whether `text` begins with `value` under the terminal's comparison. */
  predicate StartsWithLiteral(text: string, value: string, caseSensitive: bool) {
    if caseSensitive then value <= text else Fold(value) <= Fold(text)
  }

  /** `Terminal.Match`: compares the next `|value|` characters with `value`,
      ordinally or ignoring case; too little input left is its own failure. */
  function MatchTerminal(value: string, caseSensitive: bool, input: string, pos: nat): (r: MatchResult)
    requires pos <= |input|
    ensures WellFormed(r, pos, |input|)
    ensures r.isSuccess <==> StartsWithLiteral(input[pos..], value, caseSensitive)
    ensures r.isSuccess ==> r.position == pos + |value|
    ensures !r.isSuccess ==> r.position == pos && r.furthestPosition == pos
  {
    if pos + |value| > |input| then
      Failure(pos, "Expected '" + value + "' but reached end of input")
    else
      var sub := input[pos..pos + |value|];
      assert input[pos..][..|value|] == sub;
      assert Fold(input[pos..])[..|value|] == Fold(sub);
      var equal := if caseSensitive then sub == value else EqualsIgnoreCase(sub, value);
      if equal then Success(pos + |value|)
      else Failure(pos, "Expected '" + value + "' but found '" + sub + "'")
  }

  /** `CharacterRange.Match`: one character whose code lies in the range. */
  function MatchCharRange(lo: int, hi: int, input: string, pos: nat): (r: MatchResult)
    requires pos <= |input|
    ensures WellFormed(r, pos, |input|)
    ensures r.isSuccess <==> pos < |input| && lo <= input[pos] as int <= hi
    ensures r.isSuccess ==> r.position == pos + 1
    ensures !r.isSuccess ==> r.position == pos && r.furthestPosition == pos
  {
    if pos >= |input| then
      Failure(pos, "Expected character in range [" + FormatCharRange(lo, hi) + "] but reached end of input")
    else
      var c := input[pos] as int;
      if c >= lo && c <= hi then Success(pos + 1)
      else Failure(pos, "Expected character in range [" + FormatCharRange(lo, hi) + "] but " + FoundText(input[pos]))
  }

  /** `CharacterValue.Match`: one character with exactly the given code. */
  function MatchCharValue(code: int, input: string, pos: nat): (r: MatchResult)
    requires pos <= |input|
    ensures WellFormed(r, pos, |input|)
    ensures r.isSuccess <==> pos < |input| && input[pos] as int == code
    ensures r.isSuccess ==> r.position == pos + 1
    ensures !r.isSuccess ==> r.position == pos && r.furthestPosition == pos
  {
    if pos >= |input| then
      Failure(pos, "Expected character " + FormatCharValue(code) + " but reached end of input")
    else if input[pos] as int == code then Success(pos + 1)
    else Failure(pos, "Expected character " + FormatCharValue(code) + " but " + FoundText(input[pos]))
  }

  // ---------------------------------------------------------------------
  // The interpreter
  // ---------------------------------------------------------------------

  /** `Pattern.Match`: matches `p` against `input` from `pos`. Every result
      lies between the start and the end of the input, and the context
      (in particular the recursion stack) is returned unchanged. */
  function Match(p: Pattern, input: string, pos: nat, ctx: Context): (out: Outcome)
    requires pos <= |input|
    ensures out.context == ctx
    ensures WellFormed(out.result, pos, |input|)
    decreases Unused(ctx, |input|), Size(p), 0, 0
  {
    match p
    case Terminal(value, caseSensitive) => Outcome(MatchTerminal(value, caseSensitive, input, pos), ctx)
    case CharacterRange(lo, hi) => Outcome(MatchCharRange(lo, hi, input, pos), ctx)
    case CharacterValue(code) => Outcome(MatchCharValue(code, input, pos), ctx)
    case RuleReference(name) =>
      var found := TryGetRule(ctx.rules, name);
      if found.None? then Outcome(Failure(pos, "Undefined rule '" + name + "'"), ctx)
      else if IsInRecursionChain(ctx.stack, name, pos) then
        Outcome(Failure(pos, "Left recursion detected in rule '" + name + "'"), ctx)
      else
        var pushed := PushRule(ctx, name, pos);
        PushShrinksUnused(ctx, name, pos, |input|);
        var inner := Match(found.value.pattern, input, pos, pushed);
        Outcome(inner.result, PopRule(inner.context))
    case Sequence(elements) =>
      MatchSequence(elements, input, pos, ctx)
    case Alternation(alternatives) =>
      MatchAlternation(alternatives, input, pos, None, ctx)
    case Repetition(element, min, max) =>
      var minCount := min.GetOr(0);
      var maxCount := max.GetOr(IntMax);
      var loop := RepeatLoop(element, input, pos, pos, 0, maxCount, ctx);
      Outcome(RepetitionResult(pos, minCount, loop.0), loop.1)
  }

  /** The verdict of `Repetition.Match` once its loop has run: success at
      the loop's position when enough matches were made; otherwise the
      element's last failure, or a count message when there was none. */
  function RepetitionResult(pos: nat, minCount: int, t: Tally): MatchResult {
    if t.count < minCount then
      if t.lastFailure.Some? then
        var f := t.lastFailure.value;
        FailureWithFurthest(pos, f.furthestErrorMessage, f.furthestPosition, f.furthestErrorMessage)
      else Failure(pos, "Expected at least " + IntToString(minCount) + " occurrences but found " + IntToString(t.count))
    else Success(t.position)
  }

  /** `Sequence.Match`: the elements left to right, each from where the
      previous one ended; the first failure is the sequence's result. */
  function MatchSequence(elements: seq<Pattern>, input: string, pos: nat, ctx: Context): (out: Outcome)
    requires pos <= |input|
    ensures out.context == ctx
    ensures WellFormed(out.result, pos, |input|)
    decreases Unused(ctx, |input|), SizeAll(elements), 1, 0
  {
    if |elements| == 0 then Outcome(Success(pos), ctx)
    else
      var first := Match(elements[0], input, pos, ctx);
      if !first.result.isSuccess then first
      else
        SizePositive(elements[0]);
        MatchSequence(elements[1..], input, first.result.position, first.context)
  }

  /** `Alternation.Match`: the alternatives in declaration order; the first
      success wins. `furthest` is the failure with the greatest furthest
      position so far, replaced only by a strictly greater one. */
  function MatchAlternation(alternatives: seq<Pattern>, input: string, pos: nat,
                            furthest: Option<MatchResult>, ctx: Context): (out: Outcome)
    requires pos <= |input|
    requires furthest.Some? ==> !furthest.value.isSuccess && WellFormed(furthest.value, pos, |input|)
    ensures out.context == ctx
    ensures WellFormed(out.result, pos, |input|)
    decreases Unused(ctx, |input|), SizeAll(alternatives), 1, 0
  {
    if |alternatives| == 0 then
      match furthest
      case Some(f) => Outcome(f, ctx)
      case None => Outcome(Failure(pos, "No alternatives provided"), ctx)
    else
      var attempt := Match(alternatives[0], input, pos, ctx);
      if attempt.result.isSuccess then attempt
      else
        var furthest' :=
          if furthest.None? || attempt.result.furthestPosition > furthest.value.furthestPosition
          then Some(attempt.result) else furthest;
        SizePositive(alternatives[0]);
        MatchAlternation(alternatives[1..], input, pos, furthest', attempt.context)
  }

  /** The loop of `Repetition.Match`: matches the element while fewer than
      `maxCount` matches were made, stopping at the element's first failure
      or as soon as an element match ends at the repetition's start. */
  function RepeatLoop(element: Pattern, input: string, start: nat, current: nat, count: nat,
                      maxCount: int, ctx: Context): (out: (Tally, Context))
    requires start <= current <= |input|
    ensures out.1 == ctx
    ensures start <= out.0.position <= |input|
    ensures count <= out.0.count
    ensures count <= maxCount ==> out.0.count <= maxCount
    ensures out.0.lastFailure.Some? ==>
      !out.0.lastFailure.value.isSuccess && WellFormed(out.0.lastFailure.value, out.0.position, |input|)
    decreases Unused(ctx, |input|), Size(element), 1, maxCount - count
  {
    if count >= maxCount then (Tally(current, count, None), ctx)
    else
      var r := Match(element, input, current, ctx);
      if !r.result.isSuccess then (Tally(current, count, Some(r.result)), r.context)
      else if r.result.position == start then
        // The source also tests `count > 0` here, which holds after the increment.
        (Tally(r.result.position, count + 1, None), r.context)
      else RepeatLoop(element, input, start, r.result.position, count + 1, maxCount, r.context)
  }
}
