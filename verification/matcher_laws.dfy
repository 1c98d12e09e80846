/** Laws of the pattern interpreter, each relating a combinator's result to
    the results of its parts matched on their own. */
module MatcherLaws {
  import opened Wrappers
  import opened Text
  import opened MatchResults
  import opened Patterns
  import opened Contexts
  import opened Matching

  /** The result of matching `p` on its own at `pos`. */
  function Attempt(p: Pattern, input: string, pos: nat, ctx: Context): MatchResult
    requires pos <= |input|
  {
    Match(p, input, pos, ctx).result
  }

  lemma UnfoldSequence(elements: seq<Pattern>, input: string, pos: nat, ctx: Context)
    requires pos <= |input|
    ensures Attempt(Sequence(elements), input, pos, ctx) == MatchSequence(elements, input, pos, ctx).result
  {}

  lemma UnfoldAlternation(alts: seq<Pattern>, input: string, pos: nat, ctx: Context)
    requires pos <= |input|
    ensures Attempt(Alternation(alts), input, pos, ctx) == MatchAlternation(alts, input, pos, None, ctx).result
  {}

  // ---------------------------------------------------------------------
  // Rule references
  // ---------------------------------------------------------------------

  /** An undefined name fails before the recursion check; a name already on
      the stack at this position fails as left recursion; otherwise the
      rule's pattern is matched with the pair pushed, and the context is
      handed back as it was. */
  lemma RuleReferenceBehaviour(name: string, input: string, pos: nat, ctx: Context)
    requires pos <= |input|
    ensures var out := Match(RuleReference(name), input, pos, ctx);
      && out.context == ctx
      && (Fold(name) !in ctx.rules ==> out.result == Failure(pos, "Undefined rule '" + name + "'"))
      && (Fold(name) in ctx.rules && IsInRecursionChain(ctx.stack, name, pos) ==>
            out.result == Failure(pos, "Left recursion detected in rule '" + name + "'"))
      && (Fold(name) in ctx.rules && !IsInRecursionChain(ctx.stack, name, pos) ==>
            out.result == Attempt(ctx.rules[Fold(name)].pattern, input, pos, PushRule(ctx, name, pos)))
  {}

  // ---------------------------------------------------------------------
  // Sequences
  // ---------------------------------------------------------------------

  /** Matching a concatenation of two element lists is matching the first
      list and, when it succeeds, the second from where the first ended. */
  lemma {:induction false} SequenceConcat(a: seq<Pattern>, b: seq<Pattern>, input: string, pos: nat, ctx: Context)
    requires pos <= |input|
    ensures var ra := Attempt(Sequence(a), input, pos, ctx);
      Attempt(Sequence(a + b), input, pos, ctx) ==
        (if ra.isSuccess then Attempt(Sequence(b), input, ra.position, ctx) else ra)
    decreases |a|
  {
    UnfoldSequence(a, input, pos, ctx);
    UnfoldSequence(a + b, input, pos, ctx);
    if |a| == 0 {
      assert a + b == b;
    } else {
      assert (a + b)[0] == a[0];
      assert (a + b)[1..] == a[1..] + b;
      var first := Match(a[0], input, pos, ctx);
      if first.result.isSuccess {
        UnfoldSequence(a[1..], input, first.result.position, ctx);
        UnfoldSequence(a[1..] + b, input, first.result.position, ctx);
        SequenceConcat(a[1..], b, input, first.result.position, ctx);
      }
    }
  }

  /** A failing sequence reports the failure of one of its elements,
      unchanged, from a position at or after the sequence's start. */
  lemma {:induction false} SequenceFailureIsElementFailure(elements: seq<Pattern>, input: string, pos: nat, ctx: Context)
    requires pos <= |input|
    requires !Attempt(Sequence(elements), input, pos, ctx).isSuccess
    ensures exists i, q :: (0 <= i < |elements| && pos <= q <= |input| &&
      Attempt(Sequence(elements), input, pos, ctx) == Attempt(elements[i], input, q, ctx))
    decreases |elements|
  {
    var r := Attempt(Sequence(elements), input, pos, ctx);
    UnfoldSequence(elements, input, pos, ctx);
    var first := Match(elements[0], input, pos, ctx);
    if first.result.isSuccess {
      var next := first.result.position;
      UnfoldSequence(elements[1..], input, next, ctx);
      SequenceFailureIsElementFailure(elements[1..], input, next, ctx);
      var i, q :| 0 <= i < |elements[1..]| && next <= q <= |input| &&
        Attempt(Sequence(elements[1..]), input, next, ctx) == Attempt(elements[1..][i], input, q, ctx);
      assert r == Attempt(elements[i + 1], input, q, ctx);
    } else {
      assert r == Attempt(elements[0], input, pos, ctx);
    }
  }

  /** A one-element sequence behaves exactly like its element. */
  lemma SingletonSequence(e: Pattern, input: string, pos: nat, ctx: Context)
    requires pos <= |input|
    ensures Attempt(Sequence([e]), input, pos, ctx) == Attempt(e, input, pos, ctx)
  {
    UnfoldSequence([e], input, pos, ctx);
    var first := Match(e, input, pos, ctx);
    if first.result.isSuccess {
      assert [e][1..] == [];
      UnfoldSequence([], input, first.result.position, ctx);
      assert first.result == Success(first.result.position);
    }
  }

  /** A sequence's first element decides: when it fails, its failure is the
      sequence's; otherwise the rest is matched from where it ended. */
  lemma SequenceCons(e: Pattern, rest: seq<Pattern>, input: string, pos: nat, ctx: Context)
    requires pos <= |input|
    ensures var first := Attempt(e, input, pos, ctx);
      Attempt(Sequence([e] + rest), input, pos, ctx) ==
        (if first.isSuccess then Attempt(Sequence(rest), input, first.position, ctx) else first)
  {
    SequenceConcat([e], rest, input, pos, ctx);
    SingletonSequence(e, input, pos, ctx);
  }

  // ---------------------------------------------------------------------
  // Alternations
  // ---------------------------------------------------------------------

  /** Alternative `i` is the first one that matches. */
  predicate FirstSuccess(alts: seq<Pattern>, input: string, pos: nat, ctx: Context, i: int)
    requires pos <= |input|
  {
    && 0 <= i < |alts|
    && Attempt(alts[i], input, pos, ctx).isSuccess
    && forall j :: 0 <= j < i ==> !Attempt(alts[j], input, pos, ctx).isSuccess
  }

  /** Alternative `k` reached furthest, and strictly further than every
      alternative before it: the earliest of the furthest. */
  predicate EarliestFurthest(alts: seq<Pattern>, input: string, pos: nat, ctx: Context, k: int)
    requires pos <= |input|
  {
    && 0 <= k < |alts|
    && (forall j :: 0 <= j < |alts| ==>
          Attempt(alts[j], input, pos, ctx).furthestPosition <= Attempt(alts[k], input, pos, ctx).furthestPosition)
    && (forall j :: 0 <= j < k ==>
          Attempt(alts[j], input, pos, ctx).furthestPosition < Attempt(alts[k], input, pos, ctx).furthestPosition)
  }

  /** At most one alternative is the earliest of the furthest. */
  lemma EarliestFurthestUnique(alts: seq<Pattern>, input: string, pos: nat, ctx: Context, k1: int, k2: int)
    requires pos <= |input|
    requires EarliestFurthest(alts, input, pos, ctx, k1) && EarliestFurthest(alts, input, pos, ctx, k2)
    ensures k1 == k2
  {
    var reach1 := Attempt(alts[k1], input, pos, ctx).furthestPosition;
    var reach2 := Attempt(alts[k2], input, pos, ctx).furthestPosition;
  }

  lemma {:induction false} LoopTakesFirstSuccess(alts: seq<Pattern>, input: string, pos: nat,
                                                 furthest: Option<MatchResult>, ctx: Context, i: int)
    requires pos <= |input|
    requires furthest.Some? ==> !furthest.value.isSuccess && WellFormed(furthest.value, pos, |input|)
    requires FirstSuccess(alts, input, pos, ctx, i)
    ensures MatchAlternation(alts, input, pos, furthest, ctx).result == Attempt(alts[i], input, pos, ctx)
    decreases |alts|
  {
    var attempt := Match(alts[0], input, pos, ctx);
    if !attempt.result.isSuccess {
      assert i > 0;
      var furthest' :=
        if furthest.None? || attempt.result.furthestPosition > furthest.value.furthestPosition
        then Some(attempt.result) else furthest;
      assert FirstSuccess(alts[1..], input, pos, ctx, i - 1) by {
        forall j | 0 <= j < i - 1 ensures !Attempt(alts[1..][j], input, pos, ctx).isSuccess {
          assert alts[1..][j] == alts[j + 1];
        }
      }
      LoopTakesFirstSuccess(alts[1..], input, pos, furthest', ctx, i - 1);
    }
  }

  /** The failure the alternation's loop carries on after a failed
      alternative: the new one when it reached strictly further. */
  function Farther(furthest: Option<MatchResult>, attempt: MatchResult): Option<MatchResult> {
    if furthest.None? || attempt.furthestPosition > furthest.value.furthestPosition
    then Some(attempt) else furthest
  }

  /** One turn of the alternation's loop past a failed alternative. */
  lemma LoopSkipsFailure(alts: seq<Pattern>, input: string, pos: nat,
                         furthest: Option<MatchResult>, ctx: Context)
    requires pos <= |input| && |alts| > 0
    requires furthest.Some? ==> !furthest.value.isSuccess && WellFormed(furthest.value, pos, |input|)
    requires !Attempt(alts[0], input, pos, ctx).isSuccess
    ensures MatchAlternation(alts, input, pos, furthest, ctx).result ==
      MatchAlternation(alts[1..], input, pos, Farther(furthest, Attempt(alts[0], input, pos, ctx)), ctx).result
  {}

  /** The first alternative is the earliest of the furthest when none after
      it reached further. */
  lemma FirstIsEarliest(alts: seq<Pattern>, input: string, pos: nat, ctx: Context)
    requires pos <= |input| && |alts| > 0
    requires forall j :: 0 <= j < |alts[1..]| ==>
      Attempt(alts[1..][j], input, pos, ctx).furthestPosition <= Attempt(alts[0], input, pos, ctx).furthestPosition
    ensures EarliestFurthest(alts, input, pos, ctx, 0)
  {
    forall j | 1 <= j < |alts|
      ensures Attempt(alts[j], input, pos, ctx).furthestPosition <= Attempt(alts[0], input, pos, ctx).furthestPosition
    {
      assert alts[j] == alts[1..][j - 1];
    }
  }

  /** The earliest of the furthest among the later alternatives stays so
      when the first one reached less far. */
  lemma LaterIsEarliest(alts: seq<Pattern>, input: string, pos: nat, ctx: Context, k: int)
    requires pos <= |input| && |alts| > 0
    requires EarliestFurthest(alts[1..], input, pos, ctx, k)
    requires Attempt(alts[0], input, pos, ctx).furthestPosition < Attempt(alts[1..][k], input, pos, ctx).furthestPosition
    ensures EarliestFurthest(alts, input, pos, ctx, k + 1)
  {
    assert alts[k + 1] == alts[1..][k];
    forall j | 1 <= j < |alts|
      ensures Attempt(alts[j], input, pos, ctx).furthestPosition == Attempt(alts[1..][j - 1], input, pos, ctx).furthestPosition
    {
      assert alts[j] == alts[1..][j - 1];
    }
  }

  /** The alternation's loop when every alternative fails: the result is the
      failure carried in, when nothing reached further, or else the earliest
      alternative that reached furthest and strictly beyond the carried one. */
  lemma {:induction false} LoopReportsFurthest(alts: seq<Pattern>, input: string, pos: nat,
                                               furthest: Option<MatchResult>, ctx: Context)
    requires pos <= |input|
    requires furthest.Some? ==> !furthest.value.isSuccess && WellFormed(furthest.value, pos, |input|)
    requires forall j :: 0 <= j < |alts| ==> !Attempt(alts[j], input, pos, ctx).isSuccess
    ensures var r := MatchAlternation(alts, input, pos, furthest, ctx).result;
      || (furthest.None? && |alts| == 0 && r == Failure(pos, "No alternatives provided"))
      || (furthest.Some? && r == furthest.value &&
          forall j :: 0 <= j < |alts| ==>
            Attempt(alts[j], input, pos, ctx).furthestPosition <= furthest.value.furthestPosition)
      || (exists k :: (EarliestFurthest(alts, input, pos, ctx, k) && r == Attempt(alts[k], input, pos, ctx) &&
          (furthest.Some? ==> furthest.value.furthestPosition < r.furthestPosition)))
    decreases |alts|
  {
    if |alts| > 0 {
      var a0 := Attempt(alts[0], input, pos, ctx);
      var furthest' := Farther(furthest, a0);
      var tail := alts[1..];
      assert forall j :: 0 <= j < |tail| ==> tail[j] == alts[j + 1];
      LoopSkipsFailure(alts, input, pos, furthest, ctx);
      LoopReportsFurthest(tail, input, pos, furthest', ctx);
      var r := MatchAlternation(alts, input, pos, furthest, ctx).result;
      if furthest'.Some? && r == furthest'.value &&
         forall j :: 0 <= j < |tail| ==>
           Attempt(tail[j], input, pos, ctx).furthestPosition <= furthest'.value.furthestPosition {
        if furthest' == Some(a0) && (furthest.None? || a0.furthestPosition > furthest.value.furthestPosition) {
          FirstIsEarliest(alts, input, pos, ctx);
        }
      } else {
        var k :| EarliestFurthest(tail, input, pos, ctx, k) && r == Attempt(tail[k], input, pos, ctx) &&
          (furthest'.Some? ==> furthest'.value.furthestPosition < r.furthestPosition);
        LaterIsEarliest(alts, input, pos, ctx, k);
      }
    }
  }

  /** `Alternation.Match`: the first alternative that matches, in
      declaration order, is the result. */
  lemma AlternationTakesFirstSuccess(alts: seq<Pattern>, input: string, pos: nat, ctx: Context, i: int)
    requires pos <= |input|
    requires FirstSuccess(alts, input, pos, ctx, i)
    ensures Attempt(Alternation(alts), input, pos, ctx) == Attempt(alts[i], input, pos, ctx)
  {
    UnfoldAlternation(alts, input, pos, ctx);
    LoopTakesFirstSuccess(alts, input, pos, None, ctx, i);
  }

  /** `Alternation.Match` when no alternative matches: an empty alternation
      fails at its start, and otherwise the result is the failure of the
      earliest alternative among those that reached furthest. */
  lemma AlternationReportsFurthest(alts: seq<Pattern>, input: string, pos: nat, ctx: Context)
    requires pos <= |input|
    requires forall j :: 0 <= j < |alts| ==> !Attempt(alts[j], input, pos, ctx).isSuccess
    ensures |alts| == 0 ==> Attempt(Alternation(alts), input, pos, ctx) == Failure(pos, "No alternatives provided")
    ensures |alts| > 0 ==> exists k :: (EarliestFurthest(alts, input, pos, ctx, k) &&
      Attempt(Alternation(alts), input, pos, ctx) == Attempt(alts[k], input, pos, ctx))
  {
    UnfoldAlternation(alts, input, pos, ctx);
    LoopReportsFurthest(alts, input, pos, None, ctx);
  }

  /** An alternation matches exactly when one of its alternatives does. */
  lemma AlternationSucceedsIffSomeAlternative(alts: seq<Pattern>, input: string, pos: nat, ctx: Context)
    requires pos <= |input|
    ensures Attempt(Alternation(alts), input, pos, ctx).isSuccess <==>
      exists i :: 0 <= i < |alts| && Attempt(alts[i], input, pos, ctx).isSuccess
  {
    if exists i :: 0 <= i < |alts| && Attempt(alts[i], input, pos, ctx).isSuccess {
      var i := FirstSuccessExists(alts, input, pos, ctx);
      AlternationTakesFirstSuccess(alts, input, pos, ctx, i);
    } else {
      AlternationReportsFurthest(alts, input, pos, ctx);
    }
  }

  lemma FirstSuccessExists(alts: seq<Pattern>, input: string, pos: nat, ctx: Context) returns (i: int)
    requires pos <= |input|
    requires exists i :: 0 <= i < |alts| && Attempt(alts[i], input, pos, ctx).isSuccess
    ensures FirstSuccess(alts, input, pos, ctx, i)
  {
    var w :| 0 <= w < |alts| && Attempt(alts[w], input, pos, ctx).isSuccess;
    i := 0;
    while !Attempt(alts[i], input, pos, ctx).isSuccess
      invariant 0 <= i <= w
      invariant forall j :: 0 <= j < i ==> !Attempt(alts[j], input, pos, ctx).isSuccess
      decreases w - i
    {
      i := i + 1;
    }
  }

  /** A one-alternative alternation behaves exactly like its alternative. */
  lemma SingletonAlternation(e: Pattern, input: string, pos: nat, ctx: Context)
    requires pos <= |input|
    ensures Attempt(Alternation([e]), input, pos, ctx) == Attempt(e, input, pos, ctx)
  {
    UnfoldAlternation([e], input, pos, ctx);
    var attempt := Match(e, input, pos, ctx);
    if !attempt.result.isSuccess {
      assert [e][1..] == [];
      assert MatchAlternation([e], input, pos, None, ctx).result == MatchAlternation([], input, pos, Some(attempt.result), ctx).result;
    }
  }

  // ---------------------------------------------------------------------
  // Repetitions
  // ---------------------------------------------------------------------

  /** The repetition's loop stops for one of three reasons: the element
      failed where the loop stopped (and that failure is kept), the count
      reached the maximum, or an element match ended at the repetition's
      start position. */
  lemma {:induction false} RepeatLoopStops(element: Pattern, input: string, start: nat, current: nat,
                                           count: nat, maxCount: int, ctx: Context)
    requires start <= current <= |input|
    requires count <= maxCount
    ensures var t := RepeatLoop(element, input, start, current, count, maxCount, ctx).0;
      && (t.lastFailure.Some? ==>
            t.count < maxCount && t.lastFailure.value == Attempt(element, input, t.position, ctx))
      && (t.lastFailure.None? ==>
            t.count == maxCount || (t.count > count && t.position == start))
    decreases maxCount - count
  {
    if count >= maxCount || !Attempt(element, input, current, ctx).isSuccess {
      LoopStops(element, input, start, current, count, maxCount, ctx);
    } else if Attempt(element, input, current, ctx).position == start {
      LoopEndsAtStart(element, input, start, current, count, maxCount, ctx);
    } else {
      LoopContinues(element, input, start, current, count, maxCount, ctx);
      RepeatLoopStops(element, input, start, Attempt(element, input, current, ctx).position, count + 1, maxCount, ctx);
    }
  }

  /** `ps` records `|ps| - 1` consecutive matches of `element` from
      `start`: each match begins where the previous one ended, none ends
      before it began, and none but a lone first match ends back at
      `start`. */
  ghost predicate Chain(element: Pattern, input: string, start: nat, ps: seq<nat>, ctx: Context) {
    && |ps| >= 1 && ps[0] == start
    && (forall i :: 0 <= i < |ps| ==> ps[i] <= |input|)
    && (forall i :: 0 <= i < |ps| - 1 ==>
          Attempt(element, input, ps[i], ctx).isSuccess && Attempt(element, input, ps[i], ctx).position == ps[i + 1])
    && (forall i :: 0 <= i < |ps| - 1 ==> ps[i] <= ps[i + 1])
    && (forall i :: 1 <= i < |ps| && ps[i] == start ==> |ps| == 2)
  }

  /** One more match, starting where the chain ends and not ending back at
      `start` unless it is the first, extends the chain. */
  lemma ChainExtends(element: Pattern, input: string, start: nat, ps: seq<nat>, ctx: Context, next: nat)
    requires Chain(element, input, start, ps, ctx)
    requires |ps| >= 2 ==> ps[|ps| - 1] != start
    requires var r := Attempt(element, input, ps[|ps| - 1], ctx); r.isSuccess && r.position == next
    requires next == start ==> |ps| == 1
    ensures Chain(element, input, start, ps + [next], ctx)
  {
    var qs := ps + [next];
    var last := ps[|ps| - 1];
    assert next >= last && next <= |input| by {
      assert WellFormed(Attempt(element, input, last, ctx), last, |input|);
    }
    forall i | 1 <= i < |qs| && qs[i] == start ensures |qs| == 2 {
      if i < |ps| {
        assert false;
      }
    }
  }

  /** The loop's count and position are those of a chain of matches that
      extends the one it was given. */
  lemma {:induction false} RepeatLoopChain(element: Pattern, input: string, start: nat, current: nat,
                                           count: nat, maxCount: int, ctx: Context, ps: seq<nat>)
    returns (qs: seq<nat>)
    requires start <= current <= |input| && count <= maxCount
    requires Chain(element, input, start, ps, ctx) && |ps| == count + 1 && ps[count] == current
    requires count >= 1 ==> current != start
    ensures var t := RepeatLoop(element, input, start, current, count, maxCount, ctx).0;
      Chain(element, input, start, qs, ctx) && |qs| == t.count + 1 && qs[t.count] == t.position
    ensures |ps| <= |qs| && qs[..|ps|] == ps
    decreases maxCount - count
  {
    if count >= maxCount || !Attempt(element, input, current, ctx).isSuccess {
      LoopStops(element, input, start, current, count, maxCount, ctx);
      qs := ps;
    } else if Attempt(element, input, current, ctx).position == start {
      qs := ChainEndsAtStart(element, input, start, current, count, maxCount, ctx, ps);
    } else {
      var next := Attempt(element, input, current, ctx).position;
      assert current <= next by {
        assert WellFormed(Attempt(element, input, current, ctx), current, |input|);
      }
      ChainExtends(element, input, start, ps, ctx, next);
      LoopContinues(element, input, start, current, count, maxCount, ctx);
      qs := RepeatLoopChain(element, input, start, next, count + 1, maxCount, ctx, ps + [next]);
      PrefixKept(ps, next, qs);
    }
  }

  /** A first match that ends back at the start closes a chain of one
      match. */
  lemma ChainEndsAtStart(element: Pattern, input: string, start: nat, current: nat,
                         count: nat, maxCount: int, ctx: Context, ps: seq<nat>)
    returns (qs: seq<nat>)
    requires start <= current <= |input| && count < maxCount
    requires Chain(element, input, start, ps, ctx) && |ps| == count + 1 && ps[count] == current
    requires count >= 1 ==> current != start
    requires Attempt(element, input, current, ctx).isSuccess && Attempt(element, input, current, ctx).position == start
    ensures var t := RepeatLoop(element, input, start, current, count, maxCount, ctx).0;
      Chain(element, input, start, qs, ctx) && |qs| == t.count + 1 && qs[t.count] == t.position
    ensures |ps| <= |qs| && qs[..|ps|] == ps
  {
    assert count == 0 by {
      assert WellFormed(Attempt(element, input, current, ctx), current, |input|);
    }
    ChainExtends(element, input, start, ps, ctx, start);
    LoopEndsAtStart(element, input, start, current, count, maxCount, ctx);
    qs := ps + [start];
    assert qs[..|ps|] == ps;
  }

  /** The loop stops where it stands at its bound or on a failed match. */
  lemma LoopStops(element: Pattern, input: string, start: nat, current: nat, count: nat, maxCount: int, ctx: Context)
    requires start <= current <= |input|
    requires count >= maxCount || !Attempt(element, input, current, ctx).isSuccess
    ensures var t := RepeatLoop(element, input, start, current, count, maxCount, ctx).0;
      && t.count == count && t.position == current
      && (count >= maxCount ==> t.lastFailure.None?)
      && (count < maxCount ==> t.lastFailure == Some(Attempt(element, input, current, ctx)))
  {
  }

  /** A match that ends back at the start ends the loop after it. */
  lemma LoopEndsAtStart(element: Pattern, input: string, start: nat, current: nat, count: nat, maxCount: int, ctx: Context)
    requires start <= current <= |input| && count < maxCount
    requires Attempt(element, input, current, ctx).isSuccess && Attempt(element, input, current, ctx).position == start
    ensures var t := RepeatLoop(element, input, start, current, count, maxCount, ctx).0;
      t.count == count + 1 && t.position == start && t.lastFailure.None?
  {
  }

  /** A match that moves on is counted, and the loop goes on from its end. */
  lemma LoopContinues(element: Pattern, input: string, start: nat, current: nat, count: nat, maxCount: int, ctx: Context)
    requires start <= current <= |input| && count < maxCount
    requires Attempt(element, input, current, ctx).isSuccess && Attempt(element, input, current, ctx).position != start
    ensures start <= Attempt(element, input, current, ctx).position <= |input|
    ensures RepeatLoop(element, input, start, current, count, maxCount, ctx).0 ==
      RepeatLoop(element, input, start, Attempt(element, input, current, ctx).position, count + 1, maxCount, ctx).0
  {
    assert WellFormed(Attempt(element, input, current, ctx), current, |input|);
  }

  /** A list that starts with `ps + [next]` starts with `ps`. */
  lemma PrefixKept(ps: seq<nat>, next: nat, qs: seq<nat>)
    requires |ps| + 1 <= |qs| && qs[..|ps| + 1] == ps + [next]
    ensures |ps| <= |qs| && qs[..|ps|] == ps
  {
    assert qs[..|ps|] == qs[..|ps| + 1][..|ps|];
  }

  /** What a repetition's loop tallies is a chain of element matches from
      the repetition's start: `count` matches, the last ending at
      `position`. */
  lemma RepetitionChain(element: Pattern, input: string, pos: nat, maxCount: int, ctx: Context)
    returns (ps: seq<nat>)
    requires pos <= |input| && 0 <= maxCount
    ensures var t := RepeatLoop(element, input, pos, pos, 0, maxCount, ctx).0;
      Chain(element, input, pos, ps, ctx) && |ps| == t.count + 1 && ps[t.count] == t.position
  {
    ps := RepeatLoopChain(element, input, pos, pos, 0, maxCount, ctx, [pos]);
  }

  /** The number of matches a repetition requires: `Min`, or 0 when absent. */
  function MinCount(min: Option<int>): int {
    min.GetOr(0)
  }

  /** A repetition succeeds exactly when its loop matched the element at
      least `Min` times; a success ends where the loop stopped and keeps no
      furthest information of the failure that stopped it, and a failure is
      reported at the repetition's start. */
  lemma RepetitionOutcome(element: Pattern, min: Option<int>, max: Option<int>, input: string, pos: nat, ctx: Context)
    requires pos <= |input|
    ensures var t := RepeatLoop(element, input, pos, pos, 0, max.GetOr(IntMax), ctx).0;
      var r := Attempt(Repetition(element, min, max), input, pos, ctx);
      && (r.isSuccess <==> t.count >= MinCount(min))
      && (r.isSuccess ==> r == Success(t.position))
      && (!r.isSuccess ==> r.position == pos)
      && (!r.isSuccess && t.lastFailure.Some? ==>
            r.furthestPosition == t.lastFailure.value.furthestPosition &&
            r.errorMessage == t.lastFailure.value.furthestErrorMessage &&
            r.furthestErrorMessage == t.lastFailure.value.furthestErrorMessage)
      && (!r.isSuccess && t.lastFailure.None? ==>
            r == Failure(pos, "Expected at least " + IntToString(MinCount(min)) +
                              " occurrences but found " + IntToString(t.count)))
  {
    var t := RepeatLoop(element, input, pos, pos, 0, max.GetOr(IntMax), ctx).0;
    assert Attempt(Repetition(element, min, max), input, pos, ctx) == RepetitionResult(pos, MinCount(min), t);
  }

  /** With no required minimum, a repetition whose element fails at once
      succeeds without consuming anything. */
  lemma ZeroMatchesSucceed(element: Pattern, max: Option<int>, input: string, pos: nat, ctx: Context)
    requires pos <= |input|
    requires max.None? || max.value > 0
    requires !Attempt(element, input, pos, ctx).isSuccess
    ensures Attempt(Repetition(element, None, max), input, pos, ctx) == Success(pos)
    ensures Attempt(Repetition(element, Some(0), max), input, pos, ctx) == Success(pos)
  {
    var t := RepeatLoop(element, input, pos, pos, 0, max.GetOr(IntMax), ctx).0;
    assert t.position == pos && t.count == 0;
  }

  /** An option, `Repetition(element, 0, 1)`, always succeeds: past the
      element when it matches, and in place otherwise. */
  lemma OptionalElement(element: Pattern, input: string, pos: nat, ctx: Context)
    requires pos <= |input|
    ensures var e := Attempt(element, input, pos, ctx);
      Attempt(Repetition(element, Some(0), Some(1)), input, pos, ctx) ==
        Success(if e.isSuccess then e.position else pos)
  {
    var r := Match(element, input, pos, ctx);
    var t := RepeatLoop(element, input, pos, pos, 0, 1, ctx).0;
    if !r.result.isSuccess {
      assert t == Tally(pos, 0, Some(r.result));
    } else if r.result.position == pos {
      assert t == Tally(pos, 1, None);
    } else {
      assert RepeatLoop(element, input, pos, r.result.position, 1, 1, ctx).0 == Tally(r.result.position, 1, None);
      assert t == Tally(r.result.position, 1, None);
    }
  }
}
